/** The other encapsulation of the repository: it pushes the packet head down and leaves the payload
    where it is. In transport mode it builds the same frame. */
module IpsecPushHead {
  import opened Bits
  import opened Wrappers
  import opened PacketBytes
  import opened Ipsec
  import opened IpsecPackets

  /** An IPv4 datagram at start + l3, with headroom for the headers and room for the trailer. */
  predicate Pushable(m: Mem, start: nat, l3: nat, sa: Sa) {
    var o := start + l3;
    && sa.Valid() && o + IP_LEN <= |m|
    && TotLen(View(m, o, IP_LEN)) >= IP_LEN
    && sa.HdrLen() <= start
    && o + TotLen(View(m, o, IP_LEN)) + sa.TrlLen(DataLen(m, o)) <= |m|
  }

  /** ESP header below payload of n bytes at d that stays where it is, and trailer. */
  function EspAround(m: Mem, d: nat, n: nat, spi: seq<u8>, iv: seq<u8>, k: nat, proto: u8): (r: Mem)
    requires |spi| == 4 && ESP_LEN + |iv| <= d && d + n + k + TRAILER_LEN <= |m|
    ensures |r| == |m|
  {
    var e := d - |iv| - ESP_LEN;
    Splice(Splice(Splice(m, e, spi), e + ESP_LEN, iv), d + n + k, [k % 0x100, proto])
  }

  function PushEsp(m: Mem, start: nat, l3: nat, sa: Sa): (r: Mem)
    requires Pushable(m, start, l3, sa)
    ensures |r| == |m|
  {
    var o := start + l3;
    var n := DataLen(m, o);
    var m1 := Splice(m, start - sa.HdrLen(), View(m, start, l3 + IP_LEN));
    if sa.esp.None? then m1
    else EspAround(m1, o + IP_LEN, n, Be32(sa.esp.value.spi), sa.esp.value.iv, sa.TrlLen(n) - TRAILER_LEN, Proto(View(m, o, IP_LEN)))
  }

  /** do_ipsec_out_classify of the push-head application. */
  function PushMem(m: Mem, start: nat, l3: nat, sa: Sa): (r: Mem)
    requires Pushable(m, start, l3, sa)
    ensures |r| == |m|
  {
    var o := start + l3;
    var h, o' := View(m, o, IP_LEN), o - sa.HdrLen();
    var m1 := AddAh(PushEsp(m, start, l3, sa), o', sa, Next(sa, Proto(h)));
    Splice(m1, o', OutHeader(sa, h, sa.HdrLen() + sa.TrlLen(DataLen(m, o))))
  }

  lemma AroundBody(m: Mem, d: nat, n: nat, spi: seq<u8>, iv: seq<u8>, k: nat, proto: u8)
    requires |spi| == 4 && ESP_LEN + |iv| <= d && d + n + k + TRAILER_LEN <= |m|
    ensures View(EspAround(m, d, n, spi, iv, k, proto), d, n + k + TRAILER_LEN) == View(m, d, n) + View(m, d + n, k) + [k % 0x100, proto]
  {
    var e, trl := d - |iv| - ESP_LEN, [k % 0x100, proto];
    var m1 := Splice(m, e, spi);
    var m2 := Splice(m1, e + ESP_LEN, iv);
    var m3 := Splice(m2, d + n + k, trl);
    hide Splice, View;
    ViewApart(m, e, spi, d, n);
    ViewApart(m, e, spi, d + n, k);
    ViewApart(m1, e + ESP_LEN, iv, d, n);
    ViewApart(m1, e + ESP_LEN, iv, d + n, k);
    ViewApart(m2, d + n + k, trl, d, n);
    ViewApart(m2, d + n + k, trl, d + n, k);
    ViewSplice(m2, d + n + k, trl);
    ViewJoin(m3, d, n, k);
    ViewJoin(m3, d, n + k, TRAILER_LEN);
  }

  /** Nothing below the ESP header changes. */
  lemma AroundBelow(m: Mem, d: nat, n: nat, spi: seq<u8>, iv: seq<u8>, k: nat, proto: u8, p: nat, j: nat)
    requires |spi| == 4 && ESP_LEN + |iv| <= d && d + n + k + TRAILER_LEN <= |m| && p + j <= d - |iv| - ESP_LEN
    ensures View(EspAround(m, d, n, spi, iv, k, proto), p, j) == View(m, p, j)
  {
    var e := d - |iv| - ESP_LEN;
    hide Splice, View;
    ViewApart(m, e, spi, p, j);
    ViewApart(Splice(m, e, spi), e + ESP_LEN, iv, p, j);
    ViewApart(Splice(Splice(m, e, spi), e + ESP_LEN, iv), d + n + k, [k % 0x100, proto], p, j);
  }

  lemma AroundHeader(m: Mem, d: nat, n: nat, spi: seq<u8>, iv: seq<u8>, k: nat, proto: u8) returns (no: seq<u8>)
    requires |spi| == 4 && ESP_LEN + |iv| <= d && d + n + k + TRAILER_LEN <= |m|
    ensures |no| == 4 && View(EspAround(m, d, n, spi, iv, k, proto), d - |iv| - ESP_LEN, ESP_LEN + |iv|) == spi + no + iv
  {
    var e, trl := d - |iv| - ESP_LEN, [k % 0x100, proto];
    hide Splice, View;
    var m1 := Splice(m, e, spi);
    ViewSplice(m, e, spi);
    no := View(m1, e + 4, 4);
    ViewJoin(m1, e, 4, 4);
    var m2 := Splice(m1, e + ESP_LEN, iv);
    ViewApart(m1, e + ESP_LEN, iv, e, ESP_LEN);
    ViewSplice(m1, e + ESP_LEN, iv);
    ViewJoin(m2, e, ESP_LEN, |iv|);
    ViewApart(m2, d + n + k, trl, e, ESP_LEN + |iv|);
  }

  /** The padding found behind the payload. */
  function PushPad(m: Mem, o: nat, sa: Sa, n: nat): (r: seq<u8>)
    requires sa.Valid() && o + IP_LEN + n + sa.TrlLen(n) <= |m|
    ensures |r| < 0x100
  {
    if sa.esp.None? then [] else View(m, o + IP_LEN + n, sa.TrlLen(n) - TRAILER_LEN)
  }

  lemma PushEspLayout(m: Mem, start: nat, l3: nat, sa: Sa) returns (no: seq<u8>)
    requires Pushable(m, start, l3, sa)
    ensures |no| == 4
    ensures var o, n := start + l3, DataLen(m, start + l3);
      var m', c := PushEsp(m, start, l3, sa), Plain(sa, View(m, o + IP_LEN, n), PushPad(m, o, sa, n), Proto(View(m, o, IP_LEN)));
      && View(m', o + IP_LEN - sa.EspLen(), sa.EspLen()) == EspPart(sa, no)
      && View(m', o + IP_LEN, |c|) == c
      && View(m', start - sa.HdrLen(), l3) == View(m, start, l3)
  {
    hide Splice, View, EspAround, EncodeLen;
    var o, n := start + l3, DataLen(m, start + l3);
    var moved := View(m, start, l3 + IP_LEN);
    var m1 := Splice(m, start - sa.HdrLen(), moved);
    ViewApart(m, start - sa.HdrLen(), moved, o + IP_LEN, n + sa.TrlLen(n));
    LinkMoved(m, start - sa.HdrLen(), start, l3);
    if sa.esp.Some? {
      var spi, iv, k := Be32(sa.esp.value.spi), sa.esp.value.iv, sa.TrlLen(n) - TRAILER_LEN;
      SubView(m, o + IP_LEN, m1, o + IP_LEN, n + sa.TrlLen(n), 0, n);
      SubView(m, o + IP_LEN, m1, o + IP_LEN, n + sa.TrlLen(n), n, k);
      AroundBody(m1, o + IP_LEN, n, spi, iv, k, Proto(View(m, o, IP_LEN)));
      AroundBelow(m1, o + IP_LEN, n, spi, iv, k, Proto(View(m, o, IP_LEN)), start - sa.HdrLen(), l3);
      no := AroundHeader(m1, o + IP_LEN, n, spi, iv, k, Proto(View(m, o, IP_LEN)));
    } else {
      no := Zeros(4);
      EmptyView(PushEsp(m, start, l3, sa), o + IP_LEN);
    }
  }

  lemma LinkMoved(m: Mem, to: nat, from: nat, l3: nat)
    requires to <= from && from + l3 + IP_LEN <= |m|
    ensures View(Splice(m, to, View(m, from, l3 + IP_LEN)), to, l3) == View(m, from, l3)
  {
    ViewSplice(m, to, View(m, from, l3 + IP_LEN));
    var m' := Splice(m, to, View(m, from, l3 + IP_LEN));
    SubView(m', to, m, from, l3 + IP_LEN, 0, l3);
  }

  /** A whole frame before sequence numbers and crypto: link header, IPv4 header, AH, ESP header with
      whatever its sequence number field holds, payload, padding and trailer. */
  function FrameBytes(link: seq<u8>, sa: Sa, p: Clear, no: seq<u8>): seq<u8>
    requires p.Valid(sa) && |no| == 4
  {
    link + OutHeader(sa, p.h, sa.HdrLen() + sa.TrlLen(|p.data|))
    + AhPart(sa, Next(sa, Proto(p.h)), 0, ZeroIcv(sa)) + EspPart(sa, no) + Plain(sa, p.data, p.pad, Proto(p.h))
  }

  lemma FrameView(m: Mem, start: nat, l3: nat, link: seq<u8>, h: seq<u8>, a: seq<u8>, e: seq<u8>, c: seq<u8>)
    requires |link| == l3 && start + l3 + IP_LEN <= |m| && |h| == IP_LEN
    requires View(m, start, l3) == link && View(m, start + l3, IP_LEN) == h && Parts(m, start + l3, a, e, c)
    ensures View(m, start, l3 + IP_LEN + |a| + |e| + |c|) == link + h + a + e + c
  {
    hide View;
    Whole(m, start + l3, a, e, c);
    ViewJoin(m, start, l3, IP_LEN + |a| + |e| + |c|);
    assert link + (h + a + e + c) == link + h + a + e + c;
  }

  /** Length of the encapsulated datagram. */
  function GrownLen(m: Mem, o: nat, sa: Sa): nat
    requires sa.Valid() && o + IP_LEN <= |m| && TotLen(View(m, o, IP_LEN)) >= IP_LEN
  {
    IP_LEN + sa.HdrLen() + DataLen(m, o) + sa.TrlLen(DataLen(m, o))
  }

  /** The frame the memmove encapsulation leaves at the packet start. */
  function OutFrame(m: Mem, start: nat, l3: nat, sa: Sa): (r: seq<u8>)
    requires Sendable(m, start + l3, sa)
    ensures |r| == l3 + GrownLen(m, start + l3, sa)
  {
    GrownFits(m, start + l3, sa);
    View(OutMem(m, start + l3, sa), start, l3 + GrownLen(m, start + l3, sa))
  }

  lemma GrownFits(m: Mem, o: nat, sa: Sa)
    requires Sendable(m, o, sa)
    ensures o + GrownLen(m, o, sa) <= |m|
  {
  }

  /** The frame the push-head encapsulation leaves, at its packet start. */
  function PushFrame(m: Mem, start: nat, l3: nat, sa: Sa): (r: seq<u8>)
    requires Pushable(m, start, l3, sa)
    ensures |r| == l3 + GrownLen(m, start + l3, sa)
  {
    View(PushMem(m, start, l3, sa), start - sa.HdrLen(), l3 + GrownLen(m, start + l3, sa))
  }

  lemma OutFrameBytes(m: Mem, start: nat, l3: nat, sa: Sa) returns (no: seq<u8>)
    requires Sendable(m, start + l3, sa)
    ensures |no| == 4 && OutFrame(m, start, l3, sa) == FrameBytes(View(m, start, l3), sa, ClearOf(m, start + l3, sa), no)
  {
    hide View, OutHeader, Splice, OutMem, EncodeLen, TotLen;
    var o := start + l3;
    var p := ClearOf(m, o, sa);
    no := OutLayout(m, o, sa);
    OutLink(m, start, l3, sa);
    FrameView(OutMem(m, o, sa), start, l3, View(m, start, l3), OutHeader(sa, p.h, sa.HdrLen() + sa.TrlLen(|p.data|)),
              AhPart(sa, Next(sa, Proto(p.h)), 0, ZeroIcv(sa)), EspPart(sa, no), Plain(sa, p.data, p.pad, Proto(p.h)));
  }

  /** The memmove encapsulation does not touch the link header. */
  lemma OutLink(m: Mem, start: nat, l3: nat, sa: Sa)
    requires Sendable(m, start + l3, sa)
    ensures View(OutMem(m, start + l3, sa), start, l3) == View(m, start, l3)
  {
    hide View, Splice, OutHeader, AhPart, TotLen, EncodeLen;
    var o := start + l3;
    var h, n, e := View(m, o, IP_LEN), DataLen(m, o), o + IP_LEN + sa.AhLen();
    var data := View(m, o + IP_LEN, n);
    if sa.esp.Some? {
      var k := sa.TrlLen(n) - TRAILER_LEN;
      EspMemBelow(m, e, Be32(sa.esp.value.spi), sa.esp.value.iv, data, k, Proto(h), start, l3);
    } else {
      ViewApart(m, e, data, start, l3);
    }
    var m1 := AddEsp(m, o, sa);
    var a := AhPart(sa, Next(sa, Proto(h)), 0, ZeroIcv(sa));
    ViewApart(m1, o + IP_LEN, a, start, l3);
    ViewApart(Splice(m1, o + IP_LEN, a), o, OutHeader(sa, h, sa.HdrLen() + sa.TrlLen(n)), start, l3);
  }

  lemma EspMemBelow(m: Mem, e: nat, spi: seq<u8>, iv: seq<u8>, data: seq<u8>, k: nat, proto: u8, p: nat, j: nat)
    requires |spi| == 4 && e + ESP_LEN + |iv| + |data| + k + TRAILER_LEN <= |m| && p + j <= e
    ensures View(EspMem(m, e, spi, iv, data, k, proto), p, j) == View(m, p, j)
  {
    hide View, Splice;
    var d := e + ESP_LEN + |iv|;
    ViewApart(m, d, data, p, j);
    ViewApart(Splice(m, d, data), e, spi, p, j);
    ViewApart(Splice(Splice(m, d, data), e, spi), e + ESP_LEN, iv, p, j);
    ViewApart(Splice(Splice(Splice(m, d, data), e, spi), e + ESP_LEN, iv), d + |data| + k, [k % 0x100, proto], p, j);
  }

  function PushClear(m: Mem, o: nat, sa: Sa): (r: Clear)
    requires sa.Valid() && o + IP_LEN <= |m| && TotLen(View(m, o, IP_LEN)) >= IP_LEN
    requires o + TotLen(View(m, o, IP_LEN)) + sa.TrlLen(DataLen(m, o)) <= |m|
    ensures r.Valid(sa)
  {
    var n := DataLen(m, o);
    Clear(View(m, o, IP_LEN), View(m, o + IP_LEN, n), PushPad(m, o, sa, n))
  }

  /** Memory holds the encapsulation of p at o, before sequence numbers and crypto. */
  ghost predicate LaidOut(m: Mem, o: nat, sa: Sa, p: Clear, no: seq<u8>)
    requires p.Valid(sa) && |no| == 4
  {
    && o + IP_LEN <= |m| && View(m, o, IP_LEN) == OutHeader(sa, p.h, sa.HdrLen() + sa.TrlLen(|p.data|))
    && Parts(m, o, AhPart(sa, Next(sa, Proto(p.h)), 0, ZeroIcv(sa)), EspPart(sa, no), Plain(sa, p.data, p.pad, Proto(p.h)))
  }

  /** What the push-head encapsulation leaves: the layout of the other one, further down. */
  lemma PushLayout(m: Mem, start: nat, l3: nat, sa: Sa) returns (no: seq<u8>)
    requires Pushable(m, start, l3, sa)
    ensures |no| == 4
    ensures LaidOut(PushMem(m, start, l3, sa), start + l3 - sa.HdrLen(), sa, PushClear(m, start + l3, sa), no)
    ensures View(PushMem(m, start, l3, sa), start - sa.HdrLen(), l3) == View(m, start, l3)
  {
    hide View, OutHeader, Splice, EncodeLen, TotLen, PushEsp;
    var o := start + l3;
    var o', p := o - sa.HdrLen(), PushClear(m, o, sa);
    var a, c, h := AhPart(sa, Next(sa, Proto(p.h)), 0, ZeroIcv(sa)), Plain(sa, p.data, p.pad, Proto(p.h)), OutHeader(sa, p.h, sa.HdrLen() + sa.TrlLen(|p.data|));
    no := PushEspLayout(m, start, l3, sa);
    var m1 := PushEsp(m, start, l3, sa);
    HeadersOnTop(m1, o', h, a, EspPart(sa, no), c);
    ViewApart(m1, o' + IP_LEN, a, start - sa.HdrLen(), l3);
    ViewApart(Splice(m1, o' + IP_LEN, a), o', h, start - sa.HdrLen(), l3);
  }

  /** The bytes to encipher are whole blocks here too. */
  lemma PushTrailer(m: Mem, start: nat, l3: nat, sa: Sa)
    requires Pushable(m, start, l3, sa) && sa.esp.Some?
    ensures var o, n := start + l3, DataLen(m, start + l3);
      && Padded(n, sa.esp.value.block, n + sa.TrlLen(n))
      && TrailerAt(PushMem(m, start, l3, sa), o + IP_LEN, n + sa.TrlLen(n), n, m[o + 9])
  {
    hide Padded, EncodeLen, PushMem, View, LaidOut, TrailerAt, TotLen;
    var o, p := start + l3, PushClear(m, start + l3, sa);
    TrailerPads(sa, |p.data|);
    var no := PushLayout(m, start, l3, sa);
    ClearLength(sa, p);
    ProtoByte(m, o);
    LaidTrailer(PushMem(m, start, l3, sa), o - sa.HdrLen(), sa, p, no);
  }

  lemma ClearLength(sa: Sa, p: Clear)
    requires p.Valid(sa) && sa.esp.Some?
    ensures |p.pad| + 2 == sa.TrlLen(|p.data|)
  {
  }

  lemma LaidTrailer(m: Mem, o: nat, sa: Sa, p: Clear, no: seq<u8>)
    requires p.Valid(sa) && |no| == 4 && sa.esp.Some? && LaidOut(m, o, sa, p, no)
    ensures TrailerAt(m, o + IP_LEN + sa.HdrLen(), |p.data| + |p.pad| + 2, |p.data|, Proto(p.h))
  {
    hide View, OutHeader, AhPart, EspPart, TrailerAt, Plain;
    LastTwo(m, o + IP_LEN + sa.HdrLen(), sa, p.data, p.pad, Proto(p.h));
  }

  lemma PushFrameBytes(m: Mem, start: nat, l3: nat, sa: Sa) returns (no: seq<u8>)
    requires Pushable(m, start, l3, sa)
    ensures |no| == 4 && PushFrame(m, start, l3, sa) == FrameBytes(View(m, start, l3), sa, PushClear(m, start + l3, sa), no)
  {
    hide View, OutHeader, Splice, EncodeLen, TotLen, PushMem;
    var p := PushClear(m, start + l3, sa);
    no := PushLayout(m, start, l3, sa);
    FrameView(PushMem(m, start, l3, sa), start - sa.HdrLen(), l3, View(m, start, l3), OutHeader(sa, p.h, sa.HdrLen() + sa.TrlLen(|p.data|)),
              AhPart(sa, Next(sa, Proto(p.h)), 0, ZeroIcv(sa)), EspPart(sa, no), Plain(sa, p.data, p.pad, Proto(p.h)));
  }

  /** Byte i of the frame is a sequence number byte of the ESP header or a padding byte. */
  predicate Unwritten(l3: nat, sa: Sa, n: nat, i: nat)
    requires sa.Valid()
  {
    sa.esp.Some? &&
    var e, d := l3 + IP_LEN + sa.AhLen(), l3 + IP_LEN + sa.HdrLen();
    e + 4 <= i < e + 8 || d + n <= i < d + n + sa.TrlLen(n) - TRAILER_LEN
  }

  /** In transport mode both encapsulations build the same frame: same length, and the same bytes
      except those that neither has written yet. */
  lemma SameFrame(m: Mem, start: nat, l3: nat, sa: Sa, i: nat)
    requires Sendable(m, start + l3, sa) && Pushable(m, start, l3, sa)
    requires i < |OutFrame(m, start, l3, sa)| && !Unwritten(l3, sa, DataLen(m, start + l3), i)
    ensures |OutFrame(m, start, l3, sa)| == |PushFrame(m, start, l3, sa)|
    ensures OutFrame(m, start, l3, sa)[i] == PushFrame(m, start, l3, sa)[i]
  {
    hide Splice, OutFrame, PushFrame, TotLen, OutHeader, EncodeLen, View;
    var o := start + l3;
    var no := OutFrameBytes(m, start, l3, sa);
    var no' := PushFrameBytes(m, start, l3, sa);
    SameBytes(View(m, start, l3), sa, ClearOf(m, o, sa), PushClear(m, o, sa), no, no', i);
  }

  lemma SameBytes(link: seq<u8>, sa: Sa, p: Clear, p': Clear, no: seq<u8>, no': seq<u8>, i: nat)
    requires p.Valid(sa) && p'.Valid(sa) && p'.h == p.h && p'.data == p.data && |no| == |no'| == 4
    requires i < |FrameBytes(link, sa, p, no)| && !Unwritten(|link|, sa, |p.data|, i)
    ensures |FrameBytes(link, sa, p', no')| == |FrameBytes(link, sa, p, no)|
    ensures FrameBytes(link, sa, p', no')[i] == FrameBytes(link, sa, p, no)[i]
  {
    hide OutHeader, TotLen, EncodeLen;
    var x := link + OutHeader(sa, p.h, sa.HdrLen() + sa.TrlLen(|p.data|)) + AhPart(sa, Next(sa, Proto(p.h)), 0, ZeroIcv(sa));
    if sa.esp.Some? {
      var k := sa.TrlLen(|p.data|) - TRAILER_LEN;
      hide AhPart;
      EspBytes(x, Be32(sa.esp.value.spi), no, no', sa.esp.value.iv, p.data, p.pad, p'.pad, [k, Proto(p.h)], i);
    }
  }

  lemma EspBytes(x: seq<u8>, spi: seq<u8>, no: seq<u8>, no': seq<u8>, iv: seq<u8>, data: seq<u8>, pad: seq<u8>, pad': seq<u8>, trl: seq<u8>, i: nat)
    requires |spi| == |no| == |no'| == 4 && |pad| == |pad'|
    requires i < |x| + 8 + |iv| + |data| + |pad| + |trl|
    requires !(|x| + 4 <= i < |x| + 8) && !(|x| + 8 + |iv| + |data| <= i < |x| + 8 + |iv| + |data| + |pad|)
    ensures (x + (spi + no + iv) + (data + pad + trl))[i] == (x + (spi + no' + iv) + (data + pad' + trl))[i]
  {
  }

  /** The packet both applications send for a datagram: they differ in the padding they found. */
  lemma SameDatagram(m: Mem, start: nat, l3: nat, sa: Sa)
    requires Sendable(m, start + l3, sa) && Pushable(m, start, l3, sa)
    ensures var p, p' := ClearOf(m, start + l3, sa), PushClear(m, start + l3, sa);
      p'.h == p.h && p'.data == p.data && |p'.pad| == |p.pad| && (sa.esp.None? ==> p' == p)
  {
  }

  /** do_ipsec_out_classify of the push-head application. The head of the packet moves down and the
      payload stays, and still every range of the request, counted from the new head, is the one the
      other application computes; without headroom the program stops. */
  method PushClassify(p: Packet, sa: Sa) returns (v: Verdict, ctx: Ctx)
    requires sa.HdrLen() <= p.start ==> Pushable(p.mem[..], p.start, p.l3, sa)
    requires sa.Valid() && p.Ip() + IP_LEN <= p.mem.Length && TotLen(View(p.mem[..], p.Ip(), IP_LEN)) >= IP_LEN
    modifies p`start, p`len, p`tail, p.mem
    ensures var trl := sa.TrlLen(DataLen(old(p.mem[..]), old(p.Ip())));
      && v == (if sa.HdrLen() > old(p.start) then Aborted else if trl <= old(p.tail) then Continue else Dropped)
      && (v.Continue? ==> p.len == old(p.len) + sa.HdrLen() + trl)
    ensures v.Aborted? ==> p.mem[..] == old(p.mem[..])
    ensures !v.Aborted? ==> p.start == old(p.start) - sa.HdrLen() && p.mem[..] == PushMem(old(p.mem[..]), old(p.start), p.l3, sa)
    ensures v.Continue? ==> ctx == OutCtx(sa, p.l3, View(old(p.mem[..]), old(p.Ip()), IP_LEN))
    ensures v.Continue? && sa.esp.Some? ==> var n := DataLen(old(p.mem[..]), old(p.Ip()));
      && Padded(n, sa.esp.value.block, ctx.params.cipherLen)
      && TrailerAt(p.mem[..], p.start + ctx.params.cipherAt, ctx.params.cipherLen, n, old(p.mem[p.Ip() + 9]))
  {
    hide Splice, View, MutableOf, OutHeader, AddAh, EncodeLen, Padded, TrailerAt;
    if sa.HdrLen() <= p.start && sa.esp.Some? {
      PushTrailer(p.mem[..], p.start, p.l3, sa);
    }
    var buf, ip := p.start, p.Ip();
    var h := HeaderAt(p.mem, ip);
    var ipData, f := ip + IP_LEN, MutableOf(h);
    ctx := Ctx(f, 0, 0, 0, 0, NoParams, 0, 0);
    var ahLen, hdrLen := HeaderLengths(sa);
    var frontLen := ipData - buf;
    var ok := p.PushHead(hdrLen);
    if !ok {
      return Aborted, ctx;
    }
    var ah, esp, trl, encryptLen, authLen := PushBuild(p.mem, buf, p.start, frontLen, ipData, p.Ip(), ahLen, sa, h);
    buf, ip := p.start, p.Ip();
    var params := RequestFrom(buf, ip, ipData, encryptLen, ah, esp, authLen);
    ok := p.PushTail(trl);
    if !ok {
      return Dropped, ctx;
    }
    ctx := Ctx(f, if ah.Some? then ah.value - buf else 0, if esp.Some? then esp.value - buf else 0, hdrLen, trl, params, 0, 0);
    v := Continue;
  }

  /** Length of the AH, and of all new headers. */
  method HeaderLengths(sa: Sa) returns (ahLen: nat, hdrLen: nat)
    ensures ahLen == sa.AhLen() && hdrLen == sa.HdrLen()
  {
    ahLen, hdrLen := 0, 0;
    if sa.ah.Some? {
      ahLen := AH_LEN + sa.ah.value.icvLen;
      hdrLen := hdrLen + ahLen;
    }
    if sa.esp.Some? {
      hdrLen := hdrLen + (ESP_LEN + |sa.esp.value.iv|);
    }
  }

  /** Link and IPv4 header moved from buf down to head, ESP written around the payload, AH and IPv4
      header. Returns the addresses of the new headers and the lengths of the request. */
  method PushBuild(a: array<u8>, buf: nat, head: nat, frontLen: nat, ipData: nat, ip: nat, ahLen: nat, sa: Sa, h: IpHeader)
      returns (ah: Option<nat>, esp: Option<nat>, trl: nat, encryptLen: nat, authLen: nat)
    requires frontLen >= IP_LEN && Pushable(a[..], buf, frontLen - IP_LEN, sa) && h == View(a[..], buf + frontLen - IP_LEN, IP_LEN)
    requires head == buf - sa.HdrLen() && ipData == buf + frontLen && ip == head + frontLen - IP_LEN && ahLen == sa.AhLen()
    modifies a
    ensures a[..] == PushMem(old(a[..]), buf, frontLen - IP_LEN, sa)
    ensures ah == (if sa.ah.Some? then Some(ip + IP_LEN) else None)
    ensures esp == (if sa.esp.Some? then Some(ip + IP_LEN + sa.AhLen()) else None)
    ensures var n := TotLen(h) - IP_LEN;
      && trl == sa.TrlLen(n) && (sa.esp.Some? ==> encryptLen == n + trl)
      && (sa.ah.Some? ==> authLen == TotLen(h) + sa.HdrLen() + trl)
  {
    hide Splice, View, OutHeader, AddAh, EncodeLen;
    ghost var m := a[..];
    esp, trl, encryptLen := PushAround(a, buf, head, frontLen, ipData, ahLen, sa, h);
    PushedHeader(m, buf, frontLen - IP_LEN, sa);
    ah := if sa.ah.Some? then Some(head + frontLen) else None;
    authLen := EncapsulateAh(a, ip, sa, ah, sa.HdrLen() + trl);
  }

  method PushAround(a: array<u8>, buf: nat, head: nat, frontLen: nat, ipData: nat, ahLen: nat, sa: Sa, h: IpHeader)
      returns (esp: Option<nat>, trl: nat, encryptLen: nat)
    requires frontLen >= IP_LEN && Pushable(a[..], buf, frontLen - IP_LEN, sa) && h == View(a[..], buf + frontLen - IP_LEN, IP_LEN)
    requires head == buf - sa.HdrLen() && ipData == buf + frontLen && ahLen == sa.AhLen()
    modifies a
    ensures a[..] == PushEsp(old(a[..]), buf, frontLen - IP_LEN, sa)
    ensures esp == (if sa.esp.Some? then Some(head + frontLen + sa.AhLen()) else None)
    ensures trl == sa.TrlLen(TotLen(h) - IP_LEN) && (sa.esp.Some? ==> encryptLen == TotLen(h) - IP_LEN + trl)
  {
    hide Splice, View, EncodeLen;
    var n := TotLen(h) - IP_LEN;
    MoveDown(a, head, buf, frontLen);
    esp, trl, encryptLen := None, 0, 0;
    if sa.esp.Some? {
      var e := head + frontLen + ahLen;
      encryptLen := RoundUp(n + TRAILER_LEN, sa.esp.value.block);
      trl := encryptLen - n;
      Write(a, e, Be32(sa.esp.value.spi));
      Write(a, e + ESP_LEN, sa.esp.value.iv);
      Write(a, ipData + encryptLen - TRAILER_LEN, [(trl - TRAILER_LEN) % 0x100, Proto(h)]);
      esp := Some(e);
    }
  }

  /** The sending side of the push-head application: sequence numbers, crypto and header restoration run
      on the context above, and the packet at the new head is the protected form of the datagram, under
      the same sequence numbers the other application would use. */
  method PushProtect(p: Packet, sa: Sa, seqs: Counters, c: Crypto) returns (v: Verdict)
    requires sa.HdrLen() <= p.start ==> Pushable(p.mem[..], p.start, p.l3, sa)
    requires sa.Valid() && p.Ip() + IP_LEN <= p.mem.Length && TotLen(View(p.mem[..], p.Ip(), IP_LEN)) >= IP_LEN
    requires Sound(c, sa)
    modifies p`start, p`len, p`tail, p.mem, seqs
    ensures var trl := sa.TrlLen(DataLen(old(p.mem[..]), old(p.Ip())));
      && v == (if sa.HdrLen() > old(p.start) then Aborted else if trl <= old(p.tail) then Continue else Dropped)
      && (v.Continue? ==>
            && p.start == old(p.start) - sa.HdrLen() && p.len == old(p.len) + sa.HdrLen() + trl
            && Carries(p.mem[..], p.Ip(), Protected(c, sa, PushClear(old(p.mem[..]), old(p.Ip()), sa), SeqNos(old(seqs.ah), old(seqs.esp)))))
  {
    hide Splice, View, PushMem, EncodeMem, Carries, Restored, MutableOf, OutHeader, EncodeLen, FinishMem, OutCtx, Protected, PushClear, TotLen, Padded, TrailerAt;
    ghost var m, nos, start := p.mem[..], SeqNos(seqs.ah, seqs.esp), p.start;
    var h := HeaderAt(p.mem, p.Ip());
    OutCtxParts(sa, p.l3, h);
    var ctx;
    v, ctx := PushClassify(p, sa);
    if !v.Continue? {
      return;
    }
    OutSeq(p, ctx, seqs, h, sa, c);
    v := OutFinish(p, ctx, c, true);
    PushIsProtected(m, start, p.l3, sa, c, nos);
  }

  /** The in-place stages after the push-head encapsulation leave the protected datagram. */
  lemma PushIsProtected(m: Mem, start: nat, l3: nat, sa: Sa, c: Crypto, nos: SeqNos)
    requires Pushable(m, start, l3, sa) && Sound(c, sa)
    ensures var o, n := start + l3, DataLen(m, start + l3);
      && o + IP_LEN + n + sa.TrlLen(n) <= |m|
      && var m1 := EncodeMem(PushMem(m, start, l3, sa), o - sa.HdrLen(), sa, c, nos, n + sa.TrlLen(n));
      Carries(FinishMem(m1, o - sa.HdrLen(), c, MutableOf(View(m, o, IP_LEN))), o - sa.HdrLen(), Protected(c, sa, PushClear(m, o, sa), nos))
  {
    hide Splice, View, PushMem, EncodeMem, Carries, Restored, MutableOf, OutHeader, EncodeLen, FinishMem, TotLen;
    var o, p := start + l3, PushClear(m, start + l3, sa);
    var left := PushLayout(m, start, l3, sa);
    FinishLayout(PushMem(m, start, l3, sa), o - sa.HdrLen(), sa, c, nos, Next(sa, Proto(p.h)), left, Plain(sa, p.data, p.pad, Proto(p.h)), MutableOf(p.h));
  }

  /** The IPv4 header arrives at its new place. */
  lemma PushedHeader(m: Mem, start: nat, l3: nat, sa: Sa)
    requires Pushable(m, start, l3, sa)
    ensures View(PushEsp(m, start, l3, sa), start - sa.HdrLen() + l3, IP_LEN) == View(m, start + l3, IP_LEN)
  {
    hide Splice, View, EspAround, EncodeLen;
    var o, to := start + l3, start - sa.HdrLen();
    var n, moved := DataLen(m, o), View(m, start, l3 + IP_LEN);
    var m1 := Splice(m, to, moved);
    ViewSplice(m, to, moved);
    SubView(m1, to, m, start, l3 + IP_LEN, l3, IP_LEN);
    if sa.esp.Some? {
      AroundBelow(m1, o + IP_LEN, n, Be32(sa.esp.value.spi), sa.esp.value.iv, sa.TrlLen(n) - TRAILER_LEN, Proto(View(m, o, IP_LEN)), to + l3, IP_LEN);
    }
  }
}
