/** Packets in segments of fixed size: the mapping of offsets to segments, and copying between packets with
    different headroom and segment size. */
module SegmentedPacket {
  import opened Bits
  import opened PacketBytes

  function Min(a: nat, b: nat): nat {
    if a <= b then a else b
  }

  /** The segment that holds address p, and where it starts; Slot(p, size) is the offset in it. */
  function Block(p: nat, size: nat): nat
    requires size > 0
    decreases p
  {
    if p < size then 0 else 1 + Block(p - size, size)
  }

  lemma {:induction false} BlockIsDiv(p: nat, size: nat)
    requires size > 0
    ensures Block(p, size) == p / size
    decreases p
  {
    if p < size {
      ModUnique(p, size, 0, p);
    } else {
      BlockIsDiv(p - size, size);
      var q, r := (p - size) / size, (p - size) % size;
      Distribute(q, 1, size);
      ModUnique(p, size, q + 1, r);
    }
  }

  lemma {:induction false} BlockStart(p: nat, size: nat)
    requires size > 0
    ensures p == Block(p, size) * size + Slot(p, size)
    decreases p
  {
    if p >= size {
      BlockStart(p - size, size);
      Distribute(Block(p - size, size), 1, size);
    }
  }

  /** Moving within a segment. */
  lemma {:induction false} InBlock(p: nat, j: nat, size: nat)
    requires size > 0 && Slot(p, size) + j < size
    ensures Block(p + j, size) == Block(p, size) && Slot(p + j, size) == Slot(p, size) + j
    decreases p
  {
    if p >= size {
      InBlock(p - size, j, size);
    }
  }

  /** Addresses in one segment are as far apart as their offsets. */
  lemma SameBlock(p: nat, q: nat, size: nat)
    requires size > 0 && Block(p, size) == Block(q, size)
    ensures q - p == Slot(q, size) - Slot(p, size)
  {
    BlockStart(p, size);
    BlockStart(q, size);
  }

  lemma MulMonotone(a: nat, b: nat, m: nat)
    requires a <= b
    ensures a * m <= b * m
  {
    Distribute(a, b - a, m);
  }

  lemma BlockBound(p: nat, count: nat, size: nat)
    requires size > 0 && p < count * size
    ensures Block(p, size) < count
  {
    BlockStart(p, size);
    if Block(p, size) >= count {
      MulMonotone(count, Block(p, size), size);
    }
  }

  /** How many bytes one mapping of the offset offers: what is left of the frame in its segment, and nothing
      from the end of the frame on. */
  function Mapped(headroom: nat, frameLen: nat, segsize: nat, offset: nat): nat
    requires segsize > 0
  {
    var at := Slot(headroom + offset, segsize);
    if offset >= frameLen then 0
    else if at + (frameLen - offset) <= segsize then frameLen - offset else segsize - at
  }

  /** Segments of one size, no two the same. */
  predicate Segments(segsize: nat, segs: seq<array<u8>>, total: nat) {
    && segsize > 0 && total == |segs| * segsize
    && (forall i :: 0 <= i < |segs| ==> segs[i].Length == segsize)
    && (forall i, j :: 0 <= i < j < |segs| ==> segs[i] != segs[j])
  }

  class Packet {
    const segsize: nat
    const segs: seq<array<u8>>
    /** The size of all segments together. */
    const total: nat
    var headroom: nat
    var frameLen: nat

    constructor (segsize: nat, segs: seq<array<u8>>, headroom: nat, frameLen: nat)
      requires Segments(segsize, segs, |segs| * segsize) && headroom + frameLen <= |segs| * segsize
      ensures Valid() && this.segsize == segsize && this.segs == segs && this.headroom == headroom && this.frameLen == frameLen
    {
      this.segsize, this.segs, this.headroom, this.frameLen := segsize, segs, headroom, frameLen;
      total := |segs| * segsize;
    }

    predicate Valid()
      reads this
    {
      segsize > 0 && headroom + frameLen <= total && Segments(segsize, segs, total)
    }

    /** The byte at address p, counted through the segments. */
    ghost function ByteAt(p: nat): u8
      requires Valid() && p < total
      reads this, segs
    {
      BlockBound(p, |segs|, segsize);
      segs[Block(p, segsize)][Slot(p, segsize)]
    }

    /** All packet memory, headroom and tailroom included. */
    ghost function Flat(): (m: Mem)
      requires Valid()
      reads this, segs
      ensures |m| == total
    {
      seq(total, p requires 0 <= p < total reads this, segs requires Valid() => ByteAt(p))
    }

    /** The frame. */
    ghost function Contents(): (m: seq<u8>)
      requires Valid()
      reads this, segs
      ensures |m| == frameLen
    {
      View(Flat(), headroom, frameLen)
    }

    /** packet_map with buffer_map: the segment and offset of a frame offset, and how many bytes of the frame
        follow there. */
    method Map(offset: nat) returns (seg: nat, at: nat, seglen: nat)
      requires Valid() && offset < frameLen
      ensures seg == Block(headroom + offset, segsize) < |segs| && at == Slot(headroom + offset, segsize)
      ensures 0 < seglen <= frameLen - offset && at + seglen <= segsize
      ensures seglen == Mapped(headroom, frameLen, segsize, offset)
      ensures at + seglen == segsize || offset + seglen == frameLen
    {
      var p := headroom + offset;
      BlockIsDiv(p, segsize);
      SlotIsMod(p, segsize);
      BlockBound(p, |segs|, segsize);
      if p < segsize {
        seg, at := 0, p;
      } else {
        seg, at := p / segsize, p % segsize;
      }
      var left := headroom + frameLen - p;
      seglen := if at + left <= segsize then left else segsize - at;
    }
  }

  /** The packets share no segment. */
  predicate Apart(src: Packet, dst: Packet) {
    forall i, j :: 0 <= i < |src.segs| && 0 <= j < |dst.segs| ==> src.segs[i] != dst.segs[j]
  }

  /** Bytes of one segment are the same bytes of flat memory. */
  lemma ChunkView(p: Packet, pos: nat, n: nat)
    requires p.Valid() && pos + n <= p.total && pos < p.total && Slot(pos, p.segsize) + n <= p.segsize
    ensures Block(pos, p.segsize) < |p.segs|
    ensures View(p.Flat(), pos, n) == p.segs[Block(pos, p.segsize)][Slot(pos, p.segsize)..Slot(pos, p.segsize) + n]
  {
    BlockBound(pos, |p.segs|, p.segsize);
    var v, w := View(p.Flat(), pos, n), p.segs[Block(pos, p.segsize)][Slot(pos, p.segsize)..Slot(pos, p.segsize) + n];
    forall j | 0 <= j < n ensures v[j] == w[j] {
      InBlock(pos, j, p.segsize);
    }
  }

  /** A write that stays in one segment is the same write in flat memory. */
  method PutChunk(p: Packet, seg: nat, at: nat, bs: seq<u8>, ghost pos: nat)
    requires p.Valid() && pos + |bs| <= p.total && seg == Block(pos, p.segsize) < |p.segs|
    requires at == Slot(pos, p.segsize) && at + |bs| <= p.segsize
    modifies p.segs[seg]
    ensures p.Flat() == Splice(old(p.Flat()), pos, bs)
  {
    ghost var m := p.Flat();
    Write(p.segs[seg], at, bs);
    ghost var m' := Splice(m, pos, bs);
    assert forall i :: 0 <= i < |p.segs| && i != seg ==> p.segs[i] != p.segs[seg];
    forall q | 0 <= q < |m| ensures p.ByteAt(q) == m'[q] {
      BlockBound(q, |p.segs|, p.segsize);
      assert m[q] == old(p.ByteAt(q));
      if pos <= q < pos + |bs| {
        InBlock(pos, q - pos, p.segsize);
      }
      if Block(q, p.segsize) == seg {
        SameBlock(pos, q, p.segsize);
        assert p.ByteAt(q) == p.segs[seg][..][Slot(q, p.segsize)];
      }
    }
  }

  // ---------- the range test ----------

  /** The test all copies make, in 32 bits. */
  predicate Passes(offset: u32, len: u32, frameLen: nat) {
    Low32(offset + len) <= frameLen
  }

  /** It lets through the ranges within the frame, and those that come round to within it. */
  lemma PassesIff(offset: u32, len: u32, frameLen: nat)
    requires frameLen < TWO32
    ensures Passes(offset, len, frameLen) <==> offset + len <= frameLen || TWO32 <= offset + len <= TWO32 + frameLen
  {
  }

  /** Two bytes from the last offset there is pass on any frame of at least one byte. */
  lemma PassesWrongly(frameLen: nat)
    requires 1 <= frameLen < TWO32
    ensures Passes(0xFFFF_FFFF, 2, frameLen) && 0xFFFF_FFFF + 2 > frameLen
  {
  }

  /** What a copy loop over len bytes has left after k rounds, if `mapped` bytes are there after some are done. */
  function Left(mapped: nat -> nat, len: nat, k: nat): (left: nat)
    ensures left <= len
    decreases k
  {
    if k == 0 then len
    else
      var left := Left(mapped, len, k - 1);
      left - Min(left, mapped(len - left))
  }

  ghost predicate Ends(mapped: nat -> nat, len: nat) {
    exists k: nat :: Left(mapped, len, k) == 0
  }

  /** There is something to copy as far as the room goes, and not beyond. */
  ghost predicate Offers(mapped: nat -> nat, room: int) {
    forall j: nat :: (mapped(j) > 0 <==> j < room) && (j < room ==> mapped(j) <= room - j)
  }

  /** A loop with something to copy in every round ends, and one that comes to a point without goes on for
      ever. */
  lemma EndsIff(mapped: nat -> nat, len: nat, room: int)
    requires len > 0 && Offers(mapped, room)
    ensures Ends(mapped, len) <==> len <= room
  {
    if len <= room {
      Progress(mapped, len, room, len);
    } else {
      forall k: nat ensures Left(mapped, len, k) != 0 {
        Stuck(mapped, len, room, k);
      }
    }
  }

  lemma {:induction false} Progress(mapped: nat -> nat, len: nat, room: int, k: nat)
    requires Offers(mapped, room) && k <= len <= room
    ensures Left(mapped, len, k) <= len - k
    decreases k
  {
    if k > 0 {
      Progress(mapped, len, room, k - 1);
      var left := Left(mapped, len, k - 1);
      assert left > 0 ==> mapped(len - left) > 0;
    }
  }

  lemma {:induction false} Stuck(mapped: nat -> nat, len: nat, room: int, k: nat)
    requires Offers(mapped, room) && len > 0 && len > room
    ensures Left(mapped, len, k) > 0 && len - Left(mapped, len, k) <= if room < 0 then 0 else room
    decreases k
  {
    if k > 0 {
      Stuck(mapped, len, room, k - 1);
      var left := Left(mapped, len, k - 1);
      assert mapped(len - left) > 0 ==> mapped(len - left) <= room - (len - left);
    }
  }

  datatype Layout = Layout(headroom: nat, frameLen: nat, segsize: nat)

  /** What a packet has mapped from an offset on. */
  function MappedFrom(p: Layout, offset: nat): nat -> nat
    requires p.segsize > 0
  {
    (j: nat) => Mapped(p.headroom, p.frameLen, p.segsize, offset + j)
  }

  /** What two packets both have mapped. */
  function BothMapped(src: Layout, srcOffset: nat, dst: Layout, dstOffset: nat): nat -> nat
    requires src.segsize > 0 && dst.segsize > 0
  {
    (j: nat) => Min(MappedFrom(src, srcOffset)(j), MappedFrom(dst, dstOffset)(j))
  }

  lemma FrameOffers(p: Layout, offset: nat)
    requires p.segsize > 0
    ensures Offers(MappedFrom(p, offset), p.frameLen - offset)
  {
    forall j: nat ensures var n := MappedFrom(p, offset)(j); (n > 0 <==> j < p.frameLen - offset) && (offset + j < p.frameLen ==> n <= p.frameLen - offset - j) {
      assert MappedFrom(p, offset)(j) == Mapped(p.headroom, p.frameLen, p.segsize, offset + j);
    }
  }

  /** The copy loops between a packet and a flat buffer end exactly on the ranges within the frame: on any
      other that passes the test they reach the end of the frame, find nothing mapped there, and go round for
      ever. */
  lemma CopyEndsIff(p: Layout, offset: nat, len: nat)
    requires p.segsize > 0 && len > 0
    ensures Ends(MappedFrom(p, offset), len) <==> offset + len <= p.frameLen
  {
    FrameOffers(p, offset);
    EndsIff(MappedFrom(p, offset), len, p.frameLen - offset);
  }

  /** The copy loop between two packets ends exactly on the ranges that lie within both frames. */
  lemma CopyBothEndsIff(src: Layout, srcOffset: nat, dst: Layout, dstOffset: nat, len: nat)
    requires src.segsize > 0 && dst.segsize > 0 && len > 0
    ensures Ends(BothMapped(src, srcOffset, dst, dstOffset), len) <==> srcOffset + len <= src.frameLen && dstOffset + len <= dst.frameLen
  {
    hide Offers, MappedFrom, Ends;
    var a, b, both := src.frameLen - srcOffset, dst.frameLen - dstOffset, BothMapped(src, srcOffset, dst, dstOffset);
    FrameOffers(src, srcOffset);
    FrameOffers(dst, dstOffset);
    BothOffer(MappedFrom(src, srcOffset), a, MappedFrom(dst, dstOffset), b, both);
    EndsIff(both, len, if a <= b then a else b);
  }

  lemma BothOffer(f: nat -> nat, a: int, g: nat -> nat, b: int, both: nat -> nat)
    requires Offers(f, a) && Offers(g, b) && forall j: nat :: both(j) == Min(f(j), g(j))
    ensures Offers(both, if a <= b then a else b)
  {
  }

  // ---------- the copies ----------

  /** _odp_packet_copy_to_packet, on ranges on which it ends: refused when either range fails the test;
      otherwise it is a flat copy: the bytes of the range and no others change, headroom and tailroom
      included. */
  method CopyToPacket(src: Packet, srcOffset: u32, dst: Packet, dstOffset: u32, len: u32) returns (rc: int)
    requires src.Valid() && dst.Valid() && Apart(src, dst)
    requires Passes(srcOffset, len, src.frameLen) && Passes(dstOffset, len, dst.frameLen) ==>
      srcOffset + len <= src.frameLen && dstOffset + len <= dst.frameLen
    modifies dst.segs
    ensures rc == if Passes(srcOffset, len, src.frameLen) && Passes(dstOffset, len, dst.frameLen) then 0 else -1
    ensures dst.Flat() == if rc == 0 then Splice(old(dst.Flat()), dst.headroom + dstOffset, View(old(src.Flat()), src.headroom + srcOffset, len))
                          else old(dst.Flat())
    ensures src.Flat() == old(src.Flat())
  {
    hide Splice, View, Apart, Segments, Packet.Flat;
    if Low32(srcOffset + len) > src.frameLen || Low32(dstOffset + len) > dst.frameLen {
      return -1;
    }
    CopyLoop(src, srcOffset, dst, dstOffset, len);
    rc := 0;
  }

  method CopyLoop(src: Packet, srcOffset: nat, dst: Packet, dstOffset: nat, len: nat)
    requires src.Valid() && dst.Valid() && Apart(src, dst) && srcOffset + len <= src.frameLen && dstOffset + len <= dst.frameLen
    modifies dst.segs
    ensures dst.Flat() == Splice(old(dst.Flat()), dst.headroom + dstOffset, View(old(src.Flat()), src.headroom + srcOffset, len))
    ensures src.Flat() == old(src.Flat())
  {
    hide Splice, View, Apart, Segments, Packet.Flat;
    ghost var m, v, sp, dp := dst.Flat(), src.Flat(), src.headroom + srcOffset, dst.headroom + dstOffset;
    CopyNothing(m, dp, v, sp);
    var so: nat, do: nat, left: nat := srcOffset, dstOffset, len;
    while left > 0
      invariant left <= len && so == srcOffset + (len - left) && do == dstOffset + (len - left)
      invariant src.Flat() == v && dst.Flat() == Splice(m, dp, View(v, sp, len - left))
    {
      var cpylen := CopyStep(src, so, dst, do, left);
      SpliceMore(m, dp, v, sp, len - left, cpylen);
      so, do, left := so + cpylen, do + cpylen, left - cpylen;
    }
  }

  /** One round of the copy loop: as much as both current segments allow. */
  method CopyStep(src: Packet, so: nat, dst: Packet, do: nat, left: nat) returns (cpylen: nat)
    requires src.Valid() && dst.Valid() && Apart(src, dst)
    requires 0 < left && so + left <= src.frameLen && do + left <= dst.frameLen
    modifies dst.segs
    ensures 0 < cpylen <= left && src.Flat() == old(src.Flat())
    ensures cpylen == Min(left, Min(Mapped(src.headroom, src.frameLen, src.segsize, so), Mapped(dst.headroom, dst.frameLen, dst.segsize, do)))
    ensures dst.Flat() == Splice(old(dst.Flat()), dst.headroom + do, View(src.Flat(), src.headroom + so, cpylen))
  {
    hide Splice, View, Packet.Flat;
    var sseg, sat, srcSeglen := src.Map(so);
    var dseg, dat, dstSeglen := dst.Map(do);
    var minseg := if dstSeglen > srcSeglen then srcSeglen else dstSeglen;
    cpylen := if left > minseg then minseg else left;
    ChunkView(src, src.headroom + so, cpylen);
    PutChunk(dst, dseg, dat, src.segs[sseg][sat..sat + cpylen], dst.headroom + do);
  }

  lemma CopyNothing(m: Mem, at: nat, src: Mem, p: nat)
    requires at <= |m| && p <= |src|
    ensures Splice(m, at, View(src, p, 0)) == m
  {
  }

  /** Copying j bytes and then the next k is copying j + k. */
  lemma SpliceMore(m: Mem, at: nat, src: Mem, p: nat, j: nat, k: nat)
    requires at + j + k <= |m| && p + j + k <= |src|
    ensures Splice(Splice(m, at, View(src, p, j)), at + j, View(src, p + j, k)) == Splice(m, at, View(src, p, j + k))
  {
  }

  /** odp_packet_copydata_in, on ranges on which it ends: refused when the range fails the test. */
  method CopyDataIn(p: Packet, offset: u32, data: seq<u8>) returns (rc: int)
    requires p.Valid() && |data| < TWO32 && (Passes(offset, |data|, p.frameLen) ==> offset + |data| <= p.frameLen)
    modifies p.segs
    ensures rc == if Passes(offset, |data|, p.frameLen) then 0 else -1
    ensures p.Flat() == if rc == 0 then Splice(old(p.Flat()), p.headroom + offset, data) else old(p.Flat())
  {
    hide Splice, View, Segments, Packet.Flat;
    if Low32(offset + |data|) > p.frameLen {
      return -1;
    }
    ghost var m, at := p.Flat(), p.headroom + offset;
    CopyNothing(m, at, data, 0);
    var done: nat := 0;
    while done < |data|
      invariant done <= |data| && p.Flat() == Splice(m, at, View(data, 0, done))
    {
      var seg, o, seglen := p.Map(offset + done);
      var cpylen := if |data| - done > seglen then seglen else |data| - done;
      SliceView(data, done, cpylen);
      PutChunk(p, seg, o, data[done..done + cpylen], at + done);
      SpliceMore(m, at, data, 0, done, cpylen);
      done := done + cpylen;
    }
    SliceView(data, 0, |data|);
    rc := 0;
  }

  lemma SliceView(m: Mem, at: nat, n: nat)
    requires at + n <= |m|
    ensures m[at..at + n] == View(m, at, n) && View(m, 0, |m|) == m
  {
  }

  /** odp_packet_copydata_out, on ranges on which it ends. */
  method CopyDataOut(p: Packet, offset: u32, len: u32) returns (rc: int, data: seq<u8>)
    requires p.Valid() && (Passes(offset, len, p.frameLen) ==> offset + len <= p.frameLen)
    ensures rc == if Passes(offset, len, p.frameLen) then 0 else -1
    ensures rc == 0 ==> data == View(p.Flat(), p.headroom + offset, len)
  {
    hide View, Packet.Flat;
    data := [];
    if Low32(offset + len) > p.frameLen {
      return -1, data;
    }
    var done: nat := 0;
    ghost var m, at := p.Flat(), p.headroom + offset;
    EmptyView(m, at);
    while done < len
      invariant done <= len && data == View(m, at, done)
    {
      var seg, o, seglen := p.Map(offset + done);
      var cpylen := if len - done > seglen then seglen else len - done;
      ChunkView(p, at + done, cpylen);
      data := data + p.segs[seg][o..o + cpylen];
      ViewJoin(m, at, done, cpylen);
      done := done + cpylen;
    }
    rc := 0;
  }

  // ---------- adding and removing data ----------

  /** packet_alloc: a request for nothing gives a packet of the pool's buffer size. */
  function NewFrame(len: nat, poolSize: nat): nat {
    if len == 0 then poolSize else len
  }

  predicate Allocated(p: Packet, pkt: Packet, len: nat, poolSize: nat)
    reads p, pkt
  {
    p.Valid() && p.frameLen == NewFrame(len, poolSize) && Apart(pkt, p)
  }

  /** The two copies both calls make into the new packet: what is before the offset, and n bytes from `from` on to
      `at`. They fail when there is no room for the first. */
  method CopyPieces(pkt: Packet, room: Packet, offset: u32, from: u32, at: u32, n: u32) returns (ok: bool)
    requires pkt.Valid() && room.Valid() && Apart(pkt, room) && offset <= pkt.frameLen < TWO32 && from + n <= pkt.frameLen
    requires offset <= room.frameLen ==> at + n <= room.frameLen
    modifies room.segs
    ensures pkt.Flat() == old(pkt.Flat()) && (ok <==> offset <= room.frameLen)
    ensures ok ==> room.Flat() == Splice(Splice(old(room.Flat()), room.headroom, View(pkt.Flat(), pkt.headroom, offset)), room.headroom + at, View(pkt.Flat(), pkt.headroom + from, n))
  {
    hide Splice, View, Segments, Packet.Flat, Apart;
    var rc := CopyToPacket(pkt, 0, room, 0, offset);
    if rc == 0 {
      rc := CopyToPacket(pkt, from, room, at, n);
    }
    ok := rc == 0;
  }

  /** Where the copies of odp_packet_add_data do not end: the new length comes round, and what is behind the
      offset would have to go beyond it. */
  predicate AddEnds(total: nat, offset: nat, len: nat, newLen: nat) {
    total + len < TWO32 || offset >= total || offset + len >= TWO32 || offset > newLen
  }

  /** Exactly there its second copy goes on for ever. */
  lemma AddEndsIff(src: Layout, dst: Layout, offset: u32, len: u32, poolSize: u32)
    requires src.segsize > 0 && dst.segsize > 0 && offset < src.frameLen < TWO32 && offset <= dst.frameLen
    requires dst.frameLen == NewFrame(Low32(src.frameLen + len), poolSize)
    ensures AddEnds(src.frameLen, offset, len, dst.frameLen) <==> Ends(BothMapped(src, offset, dst, Low32(offset + len)), src.frameLen - offset)
  {
    AddedLength(src.frameLen, offset, len);
    CopyBothEndsIff(src, offset, dst, Low32(offset + len), src.frameLen - offset);
    hide Low32, Ends, BothMapped;
  }

  /** odp_packet_add_data with the packet its allocation gave, if any: the frame with a hole of len bytes at
      the offset. An offset past the end is refused. A sum that comes round in 32 bits makes a shorter
      frame, without bytes the old one had, or is refused. */
  method AddData(pkt: Packet, offset: u32, len: u32, room: Packet?, poolSize: nat) returns (newpkt: Packet?)
    requires pkt.Valid() && pkt.frameLen < TWO32
    requires room != null ==> Allocated(room, pkt, Low32(pkt.frameLen + len), poolSize) && AddEnds(pkt.frameLen, offset, len, room.frameLen)
    modifies if room == null then [] else room.segs
    ensures pkt.Contents() == old(pkt.Contents())
    ensures newpkt == null <==> offset > pkt.frameLen || room == null || (pkt.frameLen + len >= TWO32 && offset > room.frameLen)
    ensures newpkt != null ==> newpkt == room && room.Valid()
    ensures newpkt != null && 0 < pkt.frameLen + len < TWO32 ==>
      room.Contents() == WithHole(pkt.Contents(), offset, View(old(room.Contents()), offset, len))
    ensures newpkt != null && pkt.frameLen + len > TWO32 ==>
      offset + len >= TWO32 && room.Contents() == pkt.Contents()[..offset + len - TWO32] + pkt.Contents()[offset..]
  {
    hide Splice, View, Segments, Packet.Flat, Apart;
    if offset > pkt.frameLen || room == null {
      return null;
    }
    var total := pkt.frameLen;
    ghost var m, v := room.Flat(), pkt.Flat();
    AddedLength(total, offset, len);
    hide Low32, WithHole;
    var ok := CopyPieces(pkt, room, offset, offset, Low32(offset + len), total - offset);
    if !ok {
      return null;
    }
    newpkt := room;
    if 0 < total + len < TWO32 {
      TwoCopies(m, room.headroom, v, pkt.headroom, offset, len, total);
    } else if total + len > TWO32 {
      TwoPieces(m, room.headroom, v, pkt.headroom, offset, offset + len - TWO32, offset, total);
    }
  }

  /** The two sums in 32 bits. */
  lemma AddedLength(total: nat, offset: u32, len: u32)
    requires offset <= total < TWO32
    ensures Low32(total + len) == total + len - if total + len < TWO32 then 0 else TWO32
    ensures Low32(offset + len) == offset + len - if offset + len < TWO32 then 0 else TWO32
  {
  }

  /** x with a hole opened at the offset. */
  function WithHole(x: seq<u8>, offset: nat, hole: seq<u8>): seq<u8>
    requires offset <= |x|
  {
    x[..offset] + hole + x[offset..]
  }

  /** Copying a frame around a hole, in flat memory. */
  lemma TwoCopies(m: Mem, h: nat, v: Mem, hv: nat, offset: nat, len: nat, n: nat)
    requires offset <= n && h + n + len <= |m| && hv + n <= |v|
    ensures var m1 := Splice(m, h, View(v, hv, offset));
      var m2 := Splice(m1, h + offset + len, View(v, hv + offset, n - offset));
      View(m2, h, n + len) == WithHole(View(v, hv, n), offset, View(View(m, h, n + len), offset, len))
  {
    var m1 := Splice(m, h, View(v, hv, offset));
    var m2 := Splice(m1, h + offset + len, View(v, hv + offset, n - offset));
    var x, y := View(m2, h, n + len), WithHole(View(v, hv, n), offset, View(View(m, h, n + len), offset, len));
    forall i | 0 <= i < n + len ensures x[i] == y[i] {
    }
  }

  /** Where the copies of odp_packet_rem_data do not end: nothing would be left, and the range comes round. */
  predicate RemEnds(total: nat, offset: nat, len: nat, newLen: nat) {
    total != len || offset + len < TWO32 || offset > newLen
  }

  /** Exactly there its second copy goes on for ever. */
  lemma RemEndsIff(src: Layout, dst: Layout, offset: u32, len: u32, poolSize: u32)
    requires src.segsize > 0 && dst.segsize > 0 && offset <= src.frameLen < TWO32 && offset <= dst.frameLen
    requires Passes(offset, len, src.frameLen) && Low32(src.frameLen - offset - len) > 0
    requires dst.frameLen == NewFrame(Low32(src.frameLen - len), poolSize)
    ensures RemEnds(src.frameLen, offset, len, dst.frameLen) <==>
      Ends(BothMapped(src, Low32(offset + len), dst, offset), Low32(src.frameLen - offset - len))
  {
    NewLength(src.frameLen, offset, len);
    CopyBothEndsIff(src, Low32(offset + len), dst, offset, Low32(src.frameLen - offset - len));
    PassesIff(offset, len, src.frameLen);
    hide Ends, BothMapped;
  }

  /** odp_packet_rem_data with the packet its allocation gave, if any: the new frame is what is before the
      offset and what is from the end of the range on, as 32 bits compute that end. A range that comes round is
      refused unless it is longer than the frame. */
  method RemData(pkt: Packet, offset: u32, len: u32, room: Packet?, poolSize: nat) returns (newpkt: Packet?)
    requires pkt.Valid() && pkt.frameLen < TWO32
    requires room != null ==> Allocated(room, pkt, Low32(pkt.frameLen - len), poolSize) && RemEnds(pkt.frameLen, offset, len, room.frameLen)
    modifies if room == null then [] else room.segs
    ensures pkt.Contents() == old(pkt.Contents())
    ensures newpkt == null <==> offset > pkt.frameLen || !Passes(offset, len, pkt.frameLen) || room == null || (offset + len >= TWO32 && len <= pkt.frameLen)
    ensures newpkt != null ==> newpkt == room && room.Valid()
    ensures newpkt != null && pkt.frameLen != len ==> room.Contents() == pkt.Contents()[..offset] + pkt.Contents()[Low32(offset + len)..]
    ensures newpkt != null && pkt.frameLen == len ==> room.frameLen == poolSize
  {
    hide Splice, View, Segments, Packet.Flat, Apart;
    if offset > pkt.frameLen || Low32(offset + len) > pkt.frameLen || room == null {
      return null;
    }
    var total := pkt.frameLen;
    NewLength(total, offset, len);
    var end: u32, rest: u32 := Low32(offset + len), Low32(total - offset - len);
    ghost var m, v := room.Flat(), pkt.Flat();
    var ok := CopyPieces(pkt, room, offset, end, offset, rest);
    if !ok {
      return null;
    }
    newpkt := room;
    if total != len {
      TwoPieces(m, room.headroom, v, pkt.headroom, offset, offset, end, total);
    }
  }

  /** The 32-bit lengths are those of the two pieces, or there is no room for the first. */
  lemma NewLength(total: nat, offset: u32, len: u32)
    requires total < TWO32 && offset <= total && Passes(offset, len, total)
    ensures Low32(total - offset - len) == total - Low32(offset + len)
    ensures offset + len < TWO32 || len > total ==> Low32(total - len) == offset + (total - Low32(offset + len)) && (Low32(total - len) == 0 <==> total == len)
    ensures offset + len >= TWO32 && len <= total ==> Low32(total - len) == total - len < offset
  {
    PassesIff(offset, len, total);
  }

  /** It removes the range exactly when the range does not come round; when it does, the frame grows. */
  lemma RemovesIff(x: seq<u8>, offset: u32, len: u32)
    requires |x| < TWO32 && offset <= |x| && Passes(offset, len, |x|)
    ensures offset + len < TWO32 <==> offset + len <= |x|
    ensures offset + len < TWO32 ==> x[..offset] + x[Low32(offset + len)..] == Without(x, offset, len)
    ensures offset + len >= TWO32 ==> |x[..offset] + x[Low32(offset + len)..]| > |x|
  {
    PassesIff(offset, len, |x|);
  }

  /** x without the range. */
  function Without(x: seq<u8>, offset: nat, len: nat): seq<u8>
    requires offset + len <= |x|
  {
    x[..offset] + x[offset + len..]
  }

  /** Copying two pieces of a frame, the second from the end of the first on or over its last bytes, in flat
      memory. */
  lemma TwoPieces(m: Mem, h: nat, v: Mem, hv: nat, offset: nat, at: nat, end: nat, n: nat)
    requires at <= offset <= n && end <= n && h + offset <= |m| && h + at + (n - end) <= |m| && hv + n <= |v|
    ensures var m1 := Splice(m, h, View(v, hv, offset));
      var m2 := Splice(m1, h + at, View(v, hv + end, n - end));
      View(m2, h, at + (n - end)) == View(v, hv, n)[..at] + View(v, hv, n)[end..]
  {
    var m1 := Splice(m, h, View(v, hv, offset));
    var m2 := Splice(m1, h + at, View(v, hv + end, n - end));
    var x, y := View(m2, h, at + (n - end)), View(v, hv, n)[..at] + View(v, hv, n)[end..];
    forall i | 0 <= i < |x| ensures x[i] == y[i] {
    }
  }

  /** Removing the hole that adding data opened gives the frame back. */
  lemma RemoveAfterAdd(x: seq<u8>, offset: nat, hole: seq<u8>)
    requires offset <= |x|
    ensures Without(WithHole(x, offset, hole), offset, |hole|) == x
  {
  }

  lemma SmallSums(total: nat, offset: u32, len: u32, poolSize: nat)
    requires total + len < TWO32 && poolSize < TWO32
    ensures Low32(total + len) == total + len && Low32(total) == total && Low32(0) == 0 && Low32(poolSize) == poolSize
    ensures offset <= total ==> Low32(offset + len) == offset + len
  {
  }

  /** odp_packet_add_data and odp_packet_rem_data of the same range, each with the packet its allocation gave:
      unless one of the allocations or the offset fails, the last packet has the frame the first one had; for
      an empty frame it has one as long as the pool's buffers. */
  method AddThenRemove(pkt: Packet, offset: u32, len: u32, room: Packet?, back: Packet?, poolSize: nat) returns (newpkt: Packet?)
    requires pkt.Valid() && pkt.frameLen + len < TWO32 && poolSize < TWO32
    requires room != null ==> Allocated(room, pkt, pkt.frameLen + len, poolSize)
    requires room != null && back != null ==> Allocated(back, room, Low32(room.frameLen - len), poolSize)
    modifies (if room == null then [] else room.segs), (if back == null then [] else back.segs)
    ensures newpkt == null <==> offset > pkt.frameLen || room == null || back == null
    ensures newpkt != null ==> newpkt.Valid()
    ensures newpkt != null && pkt.frameLen > 0 ==> newpkt.Contents() == old(pkt.Contents())
    ensures newpkt != null && pkt.frameLen == 0 ==> newpkt.frameLen == poolSize
  {
    hide Segments, Packet.Flat, Packet.Contents, Apart, View, WithHole, Without, Low32;
    ghost var x := pkt.Contents();
    SmallSums(pkt.frameLen, offset, len, poolSize);
    var added := AddData(pkt, offset, len, room, poolSize);
    if added == null {
      return null;
    }
    newpkt := RemData(added, offset, len, back, poolSize);
    if newpkt != null && pkt.frameLen > 0 {
      ghost var y := added.Contents();
      RemovesIff(y, offset, len);
      ghost var hole := View(old(room.Contents()), offset, len);
      RemoveAfterAdd(x, offset, hole);
    }
  }
}
