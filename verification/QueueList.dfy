/** The queue as linked buffer headers: head, tail and next pointers rewritten in place. */
module QueueList {
  import opened QueueSpec
  import opened Tables

  class BufHdr {
    const event: Event
    var next: BufHdr?

    constructor (event: Event)
      ensures this.event == event && next == null
    {
      this.event := event;
      next := null;
    }
  }

  /** Header i points to the next one, the last to `end`. */
  ghost predicate LinkedAt(bufs: seq<BufHdr>, i: nat, end: BufHdr?)
    reads bufs
  {
    i < |bufs| && bufs[i].next == if i + 1 < |bufs| then bufs[i + 1] else end
  }

  /** The headers from `from` on are linked in order, and the last one points to `end`. */
  ghost predicate ChainTo(bufs: seq<BufHdr>, from: nat, end: BufHdr?)
    reads bufs
  {
    forall i {:trigger LinkedAt(bufs, i, end)} :: from <= i < |bufs| ==> LinkedAt(bufs, i, end)
  }

  /** bufs are linked in order and the last one ends the list. */
  ghost predicate Chain(bufs: seq<BufHdr>)
    reads bufs
  {
    ChainTo(bufs, 0, null)
  }

  ghost predicate Apart(a: seq<BufHdr>, b: seq<BufHdr>) {
    forall i, j :: 0 <= i < |a| && 0 <= j < |b| ==> a[i] != b[j]
  }

  /** Two linked lists become one once the last header of the first points to the second. */
  lemma ChainJoin(a: seq<BufHdr>, b: seq<BufHdr>)
    requires Distinct(a) && Distinct(b) && Apart(a, b) && b != [] && Chain(b)
    requires ChainTo(a, 0, b[0])
    ensures Distinct(a + b) && Chain(a + b)
  {
    var c := a + b;
    forall i | 0 <= i < |c| ensures LinkedAt(c, i, null) {
      if i < |a| {
        assert LinkedAt(a, i, b[0]);
      } else {
        assert LinkedAt(b, i - |a|, null);
      }
    }
  }

  function EventsOf(bufs: seq<BufHdr>): seq<Event> {
    seq(|bufs|, i requires 0 <= i < |bufs| => bufs[i].event)
  }

  lemma EventsOfConcat(a: seq<BufHdr>, b: seq<BufHdr>)
    ensures EventsOf(a + b) == EventsOf(a) + EventsOf(b)
  {
  }

  /** The rest of a list from header i on is a list. */
  lemma ChainDrop(all: seq<BufHdr>, i: nat)
    requires i <= |all| && Distinct(all) && ChainTo(all, i, null)
    ensures Distinct(all[i..]) && Chain(all[i..])
  {
    forall j | 0 <= j < |all| - i ensures LinkedAt(all[i..], j, null) {
      assert LinkedAt(all, i + j, null);
    }
  }

  lemma EventsOfDrop(a: seq<BufHdr>, i: nat)
    requires i <= |a|
    ensures EventsOf(a[i..]) == EventsOf(a)[i..]
  {
  }

  class QueueEntry {
    var head: BufHdr?
    var tail: BufHdr?
    var status: Status
    ghost var bufs: seq<BufHdr>

    ghost predicate Valid()
      reads this, bufs
    {
      && Distinct(bufs) && Chain(bufs)
      && head == (if bufs == [] then null else bufs[0])
      && (bufs != [] ==> tail == bufs[|bufs| - 1])
    }

    ghost function Value(): Queue
      reads this
    {
      Queue(status, EventsOf(bufs))
    }

    /** A queue as queue_init leaves it. */
    constructor (status: Status)
      ensures Valid() && Value() == Queue(status, [])
    {
      head, tail, bufs := null, null, [];
      this.status := status;
    }

    /** queue_add_list: append an already linked, disjoint list. */
    method AddList(first: BufHdr, last: BufHdr, ghost list: seq<BufHdr>)
      requires Valid() && list != [] && Distinct(list) && Chain(list)
      requires first == list[0] && last == list[|list| - 1]
      requires Apart(bufs, list)
      modifies this`head, this`tail, this`bufs, bufs
      ensures Valid() && bufs == old(bufs) + list
      ensures Value() == old(Value()).(events := old(Value()).events + EventsOf(list))
    {
      hide Apart, Distinct;
      if head != null {
        LinkTail(tail, first, bufs, list);
      } else {
        head := first;
      }
      tail := last;
      ChainJoin(bufs, list);
      EventsOfConcat(bufs, list);
      bufs := bufs + list;
    }

    /** The locked section of both enqueues. */
    method EnqList(first: BufHdr, last: BufHdr, ghost list: seq<BufHdr>) returns (ok: bool, wake: bool)
      requires Valid() && list != [] && Distinct(list) && Chain(list)
      requires first == list[0] && last == list[|list| - 1]
      requires Apart(bufs, list)
      modifies this, bufs
      ensures Valid()
      ensures var out := Enqueue(old(Value()), EventsOf(list));
        Value() == out.q && wake == out.wake && ok == out.ok
    {
      hide Distinct, Apart, EventsOf;
      if status.Bad() {
        return false, false;
      }
      AddList(first, last, list);
      ok, wake := true, status == NotSched;
      if wake {
        status := Sched;
      }
    }

    /** queue_enq without an ordered context. */
    method Enq(buf: BufHdr) returns (rc: int, wake: bool)
      requires Valid() && buf !in bufs
      modifies this, bufs, buf
      ensures Valid()
      ensures var out := Enqueue(old(Value()), [buf.event]);
        Value() == out.q && wake == out.wake && rc == if out.ok then 0 else -1
    {
      if status.Bad() {
        return -1, false;
      }
      buf.next := null;
      var ok;
      assert EventsOf([buf]) == [buf.event];
      ok, wake := EnqList(buf, buf, [buf]);
      rc := if ok then 0 else -1;
    }

    /** queue_enq_multi without an ordered context: link the headers, then append them. */
    method EnqMulti(bufHdr: array<BufHdr>, num: nat) returns (rc: int, wake: bool)
      requires Valid() && 1 <= num <= bufHdr.Length
      requires Distinct(bufHdr[..num]) && Apart(bufs, bufHdr[..num])
      modifies this, bufs, bufHdr[..num]
      ensures Valid()
      ensures var out := Enqueue(old(Value()), EventsOf(bufHdr[..num]));
        Value() == out.q && wake == out.wake && rc == if out.ok then num else -1
    {
      ghost var list := bufHdr[..num];
      assert forall i {:trigger bufs[i]} :: 0 <= i < |bufs| ==> bufs[i] !in list;
      LinkChain(bufHdr, num);
      var ok;
      ok, wake := EnqList(bufHdr[0], bufHdr[num - 1], list);
      rc := if ok then num else -1;
    }

    /** queue_deq */
    method Deq() returns (buf: BufHdr?)
      requires Valid()
      modifies this, bufs
      ensures Valid()
      ensures var out := Dequeue(old(Value()));
        && Value() == out.q
        && (out.rc == 0 ==> buf == null)
        && (out.rc == 1 ==> buf != null && buf == old(bufs)[0] && [buf.event] == out.evs && buf.next == null)
        && bufs == old(bufs)[out.rc..]
    {
      if head == null {
        if status == Sched {
          status := NotSched;
        }
        return null;
      }
      ghost var all := bufs;
      assert LinkedAt(all, 0, null);
      buf := head;
      head := Unlink(buf, all, 0);
      ChainDrop(all, 1);
      EventsOfDrop(all, 1);
      if head == null {
        tail := null;
      }
      bufs := all[1..];
    }

    /** queue_deq_multi */
    method DeqMulti(bufHdr: array<BufHdr?>, num: nat) returns (rc: int)
      requires Valid() && num <= bufHdr.Length
      modifies this, bufs, bufHdr
      ensures Valid()
      ensures var out := DequeueMulti(old(Value()), num);
        && Value() == out.q && rc == out.rc
        && bufs == old(bufs)[|out.evs|..]
        && (forall i :: 0 <= i < |out.evs| ==> bufHdr[i] == old(bufs)[i] && bufHdr[i].event == out.evs[i] && bufHdr[i].next == null)
    {
      if status.Bad() {
        return -1;
      }
      if head == null {
        if status == Sched {
          status := NotSched;
        }
        return 0;
      }
      ghost var all := bufs;
      var i := TakeFront(bufHdr, num);
      hide Distinct, Chain;
      EventsOfDrop(all, i);
      rc := i;
    }

    /** odp_queue_destroy on an unordered queue. */
    method DestroyQueue() returns (rc: int, freeCommand: bool)
      requires Valid()
      modifies this`status
      ensures Valid()
      ensures var out := Destroy(old(Value()));
        Value() == out.q && rc == out.rc && freeCommand == out.freeCommand
    {
      if status == Free || status == Destroyed || head != null {
        return -1, false;
      }
      rc, freeCommand := 0, false;
      match status
      case Ready =>
        status := Free;
      case NotSched =>
        status := Free;
        freeCommand := true;
      case Sched =>
        status := Destroyed;
    }

    /** queue_destroy_finalize */
    method Finalize() returns (freeCommand: bool)
      requires Valid()
      modifies this`status
      ensures Valid()
      ensures var out := DestroyFinalize(old(Value()));
        Value() == out.q && freeCommand == out.freeCommand
    {
      freeCommand := false;
      if status == Destroyed {
        status := Free;
        freeCommand := true;
      }
    }

    /** The loop of queue_deq_multi: unlink headers from the front while there are any. */
    method TakeFront(bufHdr: array<BufHdr?>, num: nat) returns (i: nat)
      requires Valid() && num <= bufHdr.Length && bufs != []
      modifies this`head, this`tail, this`bufs, bufs, bufHdr
      ensures Valid() && i == Min(num, |old(bufs)|) && bufs == old(bufs)[i..]
      ensures forall j :: 0 <= j < i ==> bufHdr[j] == old(bufs)[j] && old(bufs)[j].next == null
    {
      ghost var all := bufs;
      var hdr;
      i, hdr := UnlinkFront(head, all, bufHdr, num);
      ChainDrop(all, i);
      hide Distinct, Chain;
      head := hdr;
      if hdr == null {
        tail := null;
      }
      bufs := all[i..];
    }
  }

  /** The last header of one list comes to point to the first of another. */
  method LinkTail(tail: BufHdr, first: BufHdr, ghost a: seq<BufHdr>, ghost b: seq<BufHdr>)
    requires a != [] && tail == a[|a| - 1] && b != [] && first == b[0]
    requires Distinct(a) && Chain(a) && Apart(a, b) && Chain(b)
    modifies tail
    ensures ChainTo(a, 0, b[0]) && Chain(b)
  {
    ghost var n := |a|;
    assert forall i :: 0 <= i < n - 1 ==> a[i] != tail;
    tail.next := first;
    forall i | 0 <= i < n ensures LinkedAt(a, i, b[0]) {
      assert old(LinkedAt(a, i, null));
    }
    forall i | 0 <= i < |b| ensures LinkedAt(b, i, null) {
      assert old(LinkedAt(b, i, null)) && b[i] != a[n - 1];
    }
  }

  /** The loop itself: headers are stored and unlinked one by one. */
  method UnlinkFront(first: BufHdr?, ghost all: seq<BufHdr>, bufHdr: array<BufHdr?>, num: nat) returns (i: nat, hdr: BufHdr?)
    requires all != [] && first == all[0] && Distinct(all) && Chain(all) && num <= bufHdr.Length
    modifies bufHdr, all
    ensures i == Min(num, |all|) && hdr == if i < |all| then all[i] else null
    ensures forall j {:trigger bufHdr[j]} :: 0 <= j < i ==> bufHdr[j] == all[j]
    ensures forall j {:trigger all[j]} :: 0 <= j < i ==> all[j].next == null
    ensures ChainTo(all, i, null)
  {
    hide Distinct, ChainTo;
    hdr := first;
    i := 0;
    while i < num && hdr != null
      invariant 0 <= i <= num && i <= |all|
      invariant hdr == if i < |all| then all[i] else null
      invariant forall j {:trigger bufHdr[j]} :: 0 <= j < i ==> bufHdr[j] == all[j]
      invariant forall j {:trigger all[j]} :: 0 <= j < i ==> all[j].next == null
      invariant ChainTo(all, i, null)
      modifies bufHdr, all
      decreases num - i
    {
      bufHdr[i] := hdr;
      hdr := Unlink(hdr, all, i);
      i := i + 1;
    }
  }

  /** Header i leaves the list: its next pointer is read and cleared. */
  method Unlink(hdr: BufHdr, ghost all: seq<BufHdr>, ghost i: nat) returns (next: BufHdr?)
    requires i < |all| && Distinct(all) && hdr == all[i] && ChainTo(all, i, null)
    modifies hdr
    ensures next == (if i + 1 < |all| then all[i + 1] else null) && hdr.next == null
    ensures forall j {:trigger all[j]} :: 0 <= j < |all| && j != i ==> all[j].next == old(all[j].next)
    ensures ChainTo(all, i + 1, null)
  {
    assert LinkedAt(all, i, null);
    next := hdr.next;
    hdr.next := null;
    forall j | i + 1 <= j < |all| ensures LinkedAt(all, j, null) {
      assert old(LinkedAt(all, j, null)) && all[j] != all[i];
    }
  }

  /** The chaining loop of queue_enq_multi. */
  method LinkChain(bufHdr: array<BufHdr>, num: nat)
    requires 1 <= num <= bufHdr.Length && Distinct(bufHdr[..num])
    modifies bufHdr[..num]
    ensures Chain(bufHdr[..num])
  {
    ghost var list := bufHdr[..num];
    var i := 0;
    while i < num - 1
      invariant 0 <= i <= num - 1
      invariant forall j {:trigger LinkedAt(list, j, null)} :: 0 <= j < i ==> LinkedAt(list, j, null)
    {
      assert list[i] == bufHdr[i] && list[i + 1] == bufHdr[i + 1];
      SetNext(list, i, bufHdr[i], bufHdr[i + 1]);
      i := i + 1;
    }
    assert list[num - 1] == bufHdr[num - 1];
    SetNext(list, num - 1, bufHdr[num - 1], null);
  }

  /** Header i of the list gets its next pointer; the ones before keep theirs. */
  method SetNext(ghost list: seq<BufHdr>, ghost i: nat, hdr: BufHdr, next: BufHdr?)
    requires i < |list| && Distinct(list) && hdr == list[i] && next == if i + 1 < |list| then list[i + 1] else null
    requires forall j {:trigger LinkedAt(list, j, null)} :: 0 <= j < i ==> LinkedAt(list, j, null)
    modifies hdr
    ensures forall j {:trigger LinkedAt(list, j, null)} :: 0 <= j <= i ==> LinkedAt(list, j, null)
  {
    hdr.next := next;
    forall j | 0 <= j <= i ensures LinkedAt(list, j, null) {
      if j < i {
        assert old(LinkedAt(list, j, null)) && list[j] != list[i];
      }
    }
  }
}
