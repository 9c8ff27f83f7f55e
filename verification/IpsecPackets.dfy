/** The IPsec example's packet processing stages as they run: in place on packet memory. */
module IpsecPackets {
  import opened Bits
  import opened Wrappers
  import opened PacketBytes
  import opened Ipsec
  import opened IpsecIn

  /** memmove to a lower address, or in place. */
  method MoveDown(a: array<u8>, dst: nat, src: nat, n: nat)
    requires dst <= src && src + n <= a.Length
    modifies a
    ensures a[..] == Splice(old(a[..]), dst, View(old(a[..]), src, n))
  {
    ghost var m, v := a[..], View(a[..], src, n);
    var i := 0;
    while i < n
      invariant 0 <= i <= n
      invariant a[..] == Splice(m, dst, v[..i])
    {
      MovedDown(m, dst, src, v, i);
      a[dst + i] := a[src + i];
      i := i + 1;
    }
  }

  /** One step of a downward move: the next byte is still there, and storing it extends the copy. */
  lemma MovedDown(m: Mem, dst: nat, src: nat, v: seq<u8>, i: nat)
    requires dst <= src && src + |v| <= |m| && v == View(m, src, |v|) && i < |v|
    ensures var w := Splice(m, dst, v[..i]);
      w[src + i] == v[i] && w[dst + i := v[i]] == Splice(m, dst, v[..i + 1])
  {
    var w, w' := Splice(m, dst, v[..i])[dst + i := v[i]], Splice(m, dst, v[..i + 1]);
    forall j | 0 <= j < |m| ensures w[j] == w'[j] {
    }
  }

  /** memmove to a higher address. */
  method MoveUp(a: array<u8>, dst: nat, src: nat, n: nat)
    requires src <= dst && dst + n <= a.Length
    modifies a
    ensures a[..] == Splice(old(a[..]), dst, View(old(a[..]), src, n))
  {
    ghost var m, v := a[..], View(a[..], src, n);
    var i := n;
    while i > 0
      invariant 0 <= i <= n
      invariant forall j :: 0 <= j < a.Length ==> a[j] == if dst + i <= j < dst + n then v[j - dst] else m[j]
    {
      i := i - 1;
      assert v[i] == m[src + i];
      a[dst + i] := a[src + i];
    }
    assert a[..] == Splice(m, dst, v);
  }

  // ---------- header fields ----------

  /** One byte of the header at o. */
  method Put(a: array<u8>, o: nat, k: nat, v: u8)
    requires o + IP_LEN <= a.Length && k < IP_LEN
    modifies a
    ensures a[..] == Splice(old(a[..]), o, View(old(a[..]), o, IP_LEN)[k := v])
  {
    ghost var m := a[..];
    a[o + k] := v;
    assert a[..] == Splice(m, o, View(m, o, IP_LEN)[k := v]);
  }

  /** Overwriting the header at o again. */
  lemma SpliceTwice(m: Mem, o: nat, h: seq<u8>, h': seq<u8>)
    requires |h| == |h'| == IP_LEN && o + IP_LEN <= |m|
    ensures View(Splice(m, o, h), o, IP_LEN) == h && Splice(Splice(m, o, h), o, h') == Splice(m, o, h')
  {
  }

  /** ipv4_adjust_len */
  method AdjustLen(a: array<u8>, o: nat, adj: int)
    requires o + IP_LEN <= a.Length
    modifies a
    ensures var h := View(old(a[..]), o, IP_LEN); a[..] == Splice(old(a[..]), o, SetTotLen(h, TotLen(h) + adj))
  {
    ghost var m := a[..];
    var n := (From16(a[o + 2], a[o + 3]) + adj) % 0x1_0000;
    ghost var h := View(m, o, IP_LEN);
    assert h[2] == a[o + 2] && h[3] == a[o + 3];
    Put(a, o, 2, n / 0x100);
    SpliceTwice(m, o, h[2 := n / 0x100], h[2 := n / 0x100][3 := n % 0x100]);
    Put(a, o, 3, n % 0x100);
  }

  /** The mutable fields and the checksum are cleared for authentication. */
  method ClearMutable(a: array<u8>, o: nat)
    requires o + IP_LEN <= a.Length
    modifies a
    ensures a[..] == Splice(old(a[..]), o, ZeroMutable(View(old(a[..]), o, IP_LEN)))
  {
    ghost var m := a[..];
    a[o + 10], a[o + 11] := 0, 0;
    a[o + 1] := 0;
    a[o + 6], a[o + 7] := 0, 0;
    a[o + 8] := 0;
    assert a[..] == Splice(m, o, ZeroMutable(View(m, o, IP_LEN)));
  }

  /** The mutable fields are put back and the checksum is recomputed. */
  method FinalizeHeader(a: array<u8>, o: nat, c: Crypto, f: Mutable)
    requires o + IP_LEN <= a.Length
    modifies a
    ensures a[..] == Splice(old(a[..]), o, Restored(c, View(old(a[..]), o, IP_LEN), f))
  {
    ghost var m, h := a[..], View(a[..], o, IP_LEN);
    PutMutable(a, o, f);
    ghost var h1 := SetChecksum(SetMutable(h, f), 0);
    hide SetMutable, SetChecksum;
    var sum := c.csum(HeaderAt(a, o));
    SpliceTwice(m, o, h1, SetChecksum(h1, sum));
    PutChecksum(a, o, sum);
  }

  method PutMutable(a: array<u8>, o: nat, f: Mutable)
    requires o + IP_LEN <= a.Length
    modifies a
    ensures a[..] == Splice(old(a[..]), o, SetChecksum(SetMutable(View(old(a[..]), o, IP_LEN), f), 0))
  {
    hide Be16;
    ghost var m := a[..];
    a[o + 8] := f.ttl;
    a[o + 1] := f.tos;
    a[o + 6], a[o + 7] := Be16(f.frag)[0], Be16(f.frag)[1];
    a[o + 10], a[o + 11] := Be16(0)[0], Be16(0)[1];
    assert a[..] == Splice(m, o, SetChecksum(SetMutable(View(m, o, IP_LEN), f), 0));
  }

  method PutChecksum(a: array<u8>, o: nat, sum: nat)
    requires o + IP_LEN <= a.Length
    modifies a
    ensures a[..] == Splice(old(a[..]), o, SetChecksum(View(old(a[..]), o, IP_LEN), sum))
  {
    ghost var m := a[..];
    a[o + 10], a[o + 11] := Be16(sum)[0], Be16(sum)[1];
    assert a[..] == Splice(m, o, SetChecksum(View(m, o, IP_LEN), sum));
  }

  function HeaderAt(a: array<u8>, o: nat): (h: IpHeader)
    requires o + IP_LEN <= a.Length
    reads a
    ensures h == View(a[..], o, IP_LEN)
  {
    assert a[o..o + IP_LEN] == View(a[..], o, IP_LEN);
    a[o..o + IP_LEN]
  }

  /** The AH: cleared, then SPI, length and next header. */
  method WriteAh(a: array<u8>, at: nat, sa: Sa, next: u8)
    requires sa.Valid() && sa.ah.Some? && at + sa.AhLen() <= a.Length
    modifies a
    ensures a[..] == Splice(old(a[..]), at, AhPart(sa, next, 0, ZeroIcv(sa)))
  {
    ghost var m := a[..];
    Write(a, at, Zeros(sa.AhLen()));
    Write(a, at + 4, Be32(sa.ah.value.spi));
    a[at + 1] := 1 + sa.ah.value.icvLen / 4;
    a[at] := next;
    AhBytes(m, a[..], at, sa, next);
  }

  lemma AhBytes(m: Mem, m': Mem, at: nat, sa: Sa, next: u8)
    requires sa.Valid() && sa.ah.Some? && at + sa.AhLen() <= |m|
    requires m' == Splice(Splice(m, at, Zeros(sa.AhLen())), at + 4, Be32(sa.ah.value.spi))[at + 1 := 1 + sa.ah.value.icvLen / 4][at := next]
    ensures m' == Splice(m, at, AhPart(sa, next, 0, ZeroIcv(sa)))
  {
    var w := Splice(m, at, AhPart(sa, next, 0, ZeroIcv(sa)));
    forall j | 0 <= j < |m| ensures m'[j] == w[j] {
    }
  }

  /** A header write that a later one covers does not matter to a write elsewhere in between. */
  lemma Covered(m: Mem, o: nat, h: seq<u8>, at: nat, bs: seq<u8>, h': seq<u8>)
    requires |h| == |h'| == IP_LEN && o + IP_LEN <= at && at + |bs| <= |m|
    ensures Splice(Splice(Splice(m, o, h), at, bs), o, h') == Splice(Splice(m, at, bs), o, h')
    ensures View(Splice(Splice(m, o, h), at, bs), o, IP_LEN) == h
  {
  }

  // ---------- the packet and its processing context ----------

  /** The ranges of a crypto request, from the start of the packet data, and where the IV is if it is
      not the session's. */
  datatype Params = Params(cipherAt: nat, cipherLen: nat, authAt: nat, authLen: nat, icvAt: nat, ivAt: Option<nat>)

  const NoParams := Params(0, 0, 0, 0, 0, None)

  /** What one stage leaves for the next; an offset of 0 means the header is absent. src and dst are
      the addresses of the entry that matched on receipt. */
  datatype Ctx = Ctx(f: Mutable, ahOffset: nat, espOffset: nat, hdrLen: nat, trlLen: nat, params: Params, src: u32, dst: u32)

  datatype Verdict = Continue | Posted | Dropped | Aborted

  /** Sequence counters of an SA. */
  class Counters {
    var ah: u32
    var esp: u32
  }

  /** Packet memory with headroom `start`, frame length `len`, tailroom `tail`, and the offsets of the
      Ethernet and the IPv4 header from the start of the data. */
  class Packet {
    const mem: array<u8>
    const l2: nat
    const l3: nat
    var start: nat
    var len: nat
    var tail: nat

    constructor (mem: array<u8>, l2: nat, l3: nat, start: nat, len: nat, tail: nat)
      ensures this.mem == mem && this.l2 == l2 && this.l3 == l3
      ensures this.start == start && this.len == len && this.tail == tail
    {
      this.mem, this.l2, this.l3, this.start, this.len, this.tail := mem, l2, l3, start, len, tail;
    }

    /** Address of the IPv4 header. */
    function Ip(): nat
      reads this
    {
      start + l3
    }

    /** odp_packet_push_tail */
    method PushTail(n: nat) returns (ok: bool)
      modifies this`len, this`tail
      ensures ok == (n <= old(tail))
      ensures len == old(len) + (if ok then n else 0) && tail == old(tail) - (if ok then n else 0)
    {
      ok := n <= tail;
      if ok {
        len, tail := len + n, tail - n;
      }
    }

    /** odp_packet_push_head */
    method PushHead(n: nat) returns (ok: bool)
      modifies this`len, this`start
      ensures ok == (n <= old(start))
      ensures len == old(len) + (if ok then n else 0) && start == old(start) - (if ok then n else 0)
    {
      ok := n <= start;
      if ok {
        len, start := len + n, start - n;
      }
    }

    /** odp_packet_pull_tail: refused when the frame is shorter. */
    method PullTail(n: nat)
      modifies this`len, this`tail
      ensures len == old(len) - (if n <= old(len) then n else 0) && tail == old(tail) + (if n <= old(len) then n else 0)
    {
      if n <= len {
        len, tail := len - n, tail + n;
      }
    }

    /** odp_packet_pull_head */
    method PullHead(n: nat)
      modifies this`len, this`start
      ensures len == old(len) - (if n <= old(len) then n else 0) && start == old(start) + (if n <= old(len) then n else 0)
    {
      if n <= len {
        len, start := len - n, start + n;
      }
    }
  }

  /** The context do_ipsec_out_classify saves for a datagram with header h. */
  function OutCtx(sa: Sa, l3: nat, h: IpHeader): Ctx
    requires sa.Valid() && TotLen(h) >= IP_LEN
  {
    var n, ah, esp := TotLen(h) - IP_LEN, sa.ah.Some?, sa.esp.Some?;
    var trl := sa.TrlLen(n);
    Ctx(MutableOf(h), if ah then l3 + IP_LEN else 0, if esp then l3 + IP_LEN + sa.AhLen() else 0, sa.HdrLen(), trl,
        Params(if esp then l3 + IP_LEN + sa.HdrLen() else 0, if esp then n + trl else 0,
               if ah then l3 else 0, if ah then TotLen(h) + sa.HdrLen() + trl else 0,
               if ah then l3 + IP_LEN + AH_LEN else 0, None), 0, 0)
  }

  lemma OutCtxParts(sa: Sa, l3: nat, h: IpHeader)
    requires sa.Valid() && TotLen(h) >= IP_LEN
    ensures var ctx := OutCtx(sa, l3, h);
      ctx.hdrLen == sa.HdrLen() && ctx.trlLen == sa.TrlLen(TotLen(h) - IP_LEN) && ctx.f == MutableOf(h)
  {
  }

  /** ESP_ENCODE_LEN */
  method RoundUp(x: nat, b: nat) returns (r: nat)
    requires b >= 1
    ensures r == EncodeLen(x, b)
  {
    EncodeLenMacro(x, b);
    r := (x + (b - 1)) / b * b;
  }

  /** The addresses the new headers will have behind ipData, and their length. */
  method PlaceHeaders(ipData: nat, sa: Sa) returns (ah: Option<nat>, esp: Option<nat>, hdrLen: nat)
    ensures ah == (if sa.ah.Some? then Some(ipData) else None)
    ensures esp == (if sa.esp.Some? then Some(ipData + sa.AhLen()) else None)
    ensures hdrLen == sa.HdrLen()
  {
    ah, esp, hdrLen := None, None, 0;
    if sa.ah.Some? {
      ah := Some(ipData + hdrLen);
      hdrLen := hdrLen + AH_LEN;
      hdrLen := hdrLen + sa.ah.value.icvLen;
    }
    if sa.esp.Some? {
      esp := Some(ipData + hdrLen);
      hdrLen := hdrLen + ESP_LEN;
      hdrLen := hdrLen + |sa.esp.value.iv|;
    }
  }

  /** The payload moved up behind the new headers, and the ESP header and trailer around it. Returns
      where the payload is now, the trailer length and the length to encipher. */
  method EncapsulateEsp(a: array<u8>, o: nat, sa: Sa, esp: Option<nat>, hdrLen: nat)
      returns (ipData: nat, trl: nat, encryptLen: nat)
    requires Sendable(a[..], o, sa) && hdrLen == sa.HdrLen()
    requires esp == if sa.esp.Some? then Some(o + IP_LEN + sa.AhLen()) else None
    modifies a
    ensures a[..] == AddEsp(old(a[..]), o, sa) && ipData == o + IP_LEN + sa.HdrLen()
    ensures var n := DataLen(old(a[..]), o); trl == sa.TrlLen(n) && encryptLen == if sa.esp.Some? then n + trl else 0
    ensures sa.esp.Some? ==> var n := DataLen(old(a[..]), o);
      Padded(n, sa.esp.value.block, encryptLen) && TrailerAt(a[..], ipData, encryptLen, n, old(a[o + 9]))
  {
    hide Splice, View, EncodeLen, Padded, TrailerAt;
    if sa.esp.Some? {
      OutTrailer(a[..], o, sa);
    }
    var h := HeaderAt(a, o);
    var n := TotLen(h) - IP_LEN;
    ipData := o + IP_LEN;
    MoveUp(a, ipData + hdrLen, ipData, n);
    ipData := ipData + hdrLen;
    trl, encryptLen := 0, 0;
    if esp.Some? {
      encryptLen := RoundUp(n + TRAILER_LEN, sa.esp.value.block);
      trl := encryptLen - n;
      Write(a, esp.value, Be32(sa.esp.value.spi));
      Write(a, esp.value + ESP_LEN, sa.esp.value.iv);
      Write(a, ipData + encryptLen - TRAILER_LEN, [(trl - TRAILER_LEN) % 0x100, Proto(h)]);
    }
  }

  /** The AH and the final header of the sending side. Returns the length to authenticate, which is
      read from the header before that is given its final length. */
  method EncapsulateAh(a: array<u8>, o: nat, sa: Sa, ah: Option<nat>, grow: nat) returns (authLen: nat)
    requires sa.Valid() && o + IP_LEN + sa.AhLen() <= a.Length
    requires ah == if sa.ah.Some? then Some(o + IP_LEN) else None
    modifies a
    ensures var h := View(old(a[..]), o, IP_LEN);
      && a[..] == Splice(AddAh(old(a[..]), o, sa, Next(sa, Proto(h))), o, OutHeader(sa, h, grow))
      && authLen == if sa.ah.Some? then TotLen(h) + grow else 0
  {
    hide Splice, View, ZeroMutable, SetTotLen, AhPart, TotLen;
    authLen := 0;
    ghost var m, h := a[..], View(a[..], o, IP_LEN);
    var proto := HeaderAt(a, o)[9];
    proto := Next(sa, proto);
    Put(a, o, 9, proto);
    ghost var h1 := SetProto(h, proto);
    SameTotLen(h);
    SpliceTwice(m, o, h1, OutHeader(sa, h, grow));
    if ah.Some? {
      ghost var part, h3 := AhPart(sa, proto, 0, ZeroIcv(sa)), ZeroMutable(SetProto(h1, IPPROTO_AH));
      authLen := BuildAh(a, o, sa, ah.value, proto, grow);
      Covered(m, o, h1, o + IP_LEN, part, h3);
      SpliceTwice(Splice(m, o + IP_LEN, part), o, h3, OutHeader(sa, h, grow));
    } else {
      SpliceNothing(m, o + IP_LEN);
    }
    AdjustLen(a, o, grow);
  }

  /** The AH written, and the header as it is authenticated except for its length. */
  method BuildAh(a: array<u8>, o: nat, sa: Sa, ah: nat, proto: u8, grow: nat) returns (authLen: nat)
    requires sa.Valid() && sa.ah.Some? && ah == o + IP_LEN && o + IP_LEN + sa.AhLen() <= a.Length
    modifies a
    ensures var h := View(old(a[..]), o, IP_LEN);
      && a[..] == Splice(Splice(old(a[..]), o + IP_LEN, AhPart(sa, proto, 0, ZeroIcv(sa))), o, ZeroMutable(SetProto(h, IPPROTO_AH)))
      && authLen == TotLen(h) + grow
  {
    hide Splice, View, ZeroMutable, AhPart, TotLen;
    ghost var m, h := a[..], View(a[..], o, IP_LEN);
    ghost var part, h2 := AhPart(sa, proto, 0, ZeroIcv(sa)), SetProto(h, IPPROTO_AH);
    WriteAh(a, ah, sa, proto);
    ViewApart(m, o + IP_LEN, part, o, IP_LEN);
    Put(a, o, 9, IPPROTO_AH);
    SpliceTwice(Splice(m, o + IP_LEN, part), o, h2, ZeroMutable(h2));
    ClearMutable(a, o);
    SpliceTwice(Splice(m, o + IP_LEN, part), o, ZeroMutable(h2), h2);
    SameTotLen(h);
    ClearedLength(h2);
    authLen := TotLen(HeaderAt(a, o)) + grow;
  }

  lemma SpliceNothing(m: Mem, at: nat)
    requires at <= |m|
    ensures Splice(m, at, []) == m
  {
  }

  lemma SameTotLen(h: IpHeader)
    ensures forall p :: TotLen(SetProto(h, p)) == TotLen(h)
    ensures forall p, p' :: TotLen(ZeroMutable(SetProto(SetProto(h, p), p'))) == TotLen(h)
  {
  }

  /** do_ipsec_out_classify for a packet with an entry in the cache: on success the packet has grown
      by headers and trailer; without tailroom it is dropped. */
  method OutClassify(p: Packet, sa: Sa) returns (v: Verdict, ctx: Ctx)
    requires Sendable(p.mem[..], p.Ip(), sa)
    modifies p`len, p`tail, p.mem
    ensures p.mem[..] == OutMem(old(p.mem[..]), p.Ip(), sa)
    ensures var grow := sa.HdrLen() + sa.TrlLen(DataLen(old(p.mem[..]), p.Ip()));
      && v == (if grow <= old(p.tail) then Posted else Dropped)
      && (v.Posted? ==> p.len == old(p.len) + grow && p.tail == old(p.tail) - grow)
    ensures v.Posted? ==> ctx == OutCtx(sa, p.l3, View(old(p.mem[..]), p.Ip(), IP_LEN))
    ensures v.Posted? && sa.esp.Some? ==> var n := DataLen(old(p.mem[..]), p.Ip());
      && Padded(n, sa.esp.value.block, ctx.params.cipherLen)
      && TrailerAt(p.mem[..], p.start + ctx.params.cipherAt, ctx.params.cipherLen, n, old(p.mem[p.Ip() + 9]))
  {
    hide Splice, View, EncodeLen, AddAh, OutHeader, MutableOf, Padded, TrailerAt;
    ghost var m := p.mem[..];
    if sa.esp.Some? {
      OutTrailer(m, p.Ip(), sa);
    }
    var buf, ip := p.start, p.Ip();
    var f := MutableOf(HeaderAt(p.mem, ip));
    var ah, esp, hdrLen := PlaceHeaders(ip + IP_LEN, sa);
    var ipData, trl, encryptLen := EncapsulateEsp(p.mem, ip, sa, esp, hdrLen);
    HeaderKept(m, ip, sa);
    var authLen := EncapsulateAh(p.mem, ip, sa, ah, hdrLen + trl);
    var params := RequestFrom(buf, ip, ipData, encryptLen, ah, esp, authLen);
    ctx := Ctx(f, 0, 0, 0, 0, NoParams, 0, 0);
    var ok := p.PushTail(hdrLen + trl);
    if !ok {
      return Dropped, ctx;
    }
    ctx := Ctx(f, if ah.Some? then ah.value - buf else 0, if esp.Some? then esp.value - buf else 0, hdrLen, trl, params, 0, 0);
    v := Posted;
  }

  /** The crypto request, from the addresses of the packet data, the IPv4 header, the bytes to
      encipher and the AH. */
  method RequestFrom(buf: nat, ip: nat, ipData: nat, encryptLen: nat, ah: Option<nat>, esp: Option<nat>, authLen: nat)
      returns (params: Params)
    requires buf <= ip && buf <= ipData && (ah.Some? ==> buf <= ah.value)
    ensures params.cipherAt == (if esp.Some? then ipData - buf else 0) && params.cipherLen == (if esp.Some? then encryptLen else 0)
    ensures params.authAt == (if ah.Some? then ip - buf else 0) && params.authLen == (if ah.Some? then authLen else 0)
    ensures params.icvAt == (if ah.Some? then ah.value + AH_LEN - buf else 0) && params.ivAt.None?
  {
    params := NoParams;
    if esp.Some? {
      params := params.(cipherAt := ipData - buf, cipherLen := encryptLen);
    }
    if ah.Some? {
      params := params.(authAt := ip - buf, authLen := authLen, icvAt := ah.value + AH_LEN - buf);
    }
  }

  lemma HeaderKept(m: Mem, o: nat, sa: Sa)
    requires Sendable(m, o, sa)
    ensures View(AddEsp(m, o, sa), o, IP_LEN) == View(m, o, IP_LEN)
  {
    if sa.esp.Some? {
      var no := AddEspParts(m, o, sa, sa.esp.value);
    } else {
      ViewApart(m, o + IP_LEN + sa.AhLen(), View(m, o + IP_LEN, DataLen(m, o)), o, IP_LEN);
    }
  }

  /** do_ipsec_out_seq: sequence numbers in packet order, then ciphering and authentication. */
  method OutSeq(p: Packet, ctx: Ctx, seqs: Counters, ghost h: IpHeader, sa: Sa, c: Crypto)
    requires sa.Valid() && Sound(c, sa) && TotLen(h) >= IP_LEN && ctx == OutCtx(sa, p.l3, h)
    requires p.Ip() + TotLen(h) + ctx.hdrLen + ctx.trlLen <= p.mem.Length
    modifies p.mem, seqs
    ensures var nos, n := SeqNos(old(seqs.ah), old(seqs.esp)), TotLen(h) - IP_LEN;
      p.mem[..] == EncodeMem(old(p.mem[..]), p.Ip(), sa, c, nos, n + sa.TrlLen(n))
    ensures seqs.ah == if sa.ah.Some? then Low32(old(seqs.ah) + 1) else old(seqs.ah)
    ensures seqs.esp == if sa.esp.Some? then Low32(old(seqs.esp) + 1) else old(seqs.esp)
  {
    hide Splice, View, MutableOf, EncodeLen;
    if ctx.ahOffset != 0 {
      Write(p.mem, p.start + ctx.ahOffset + 8, Be32(seqs.ah));
      seqs.ah := Low32(seqs.ah + 1);
    }
    if ctx.espOffset != 0 {
      Write(p.mem, p.start + ctx.espOffset + 4, Be32(seqs.esp));
      seqs.esp := Low32(seqs.esp + 1);
    }
    Encode(p, ctx.params, sa, c);
  }

  /** The bytes at [at, at + n). */
  function Bytes(a: array<u8>, at: nat, n: nat): (r: seq<u8>)
    requires at + n <= a.Length
    reads a
    ensures r == View(a[..], at, n)
  {
    assert a[at..at + n] == View(a[..], at, n);
    a[at..at + n]
  }

  /** An encoding crypto operation: the ciphertext is authenticated. */
  method Encode(p: Packet, params: Params, sa: Sa, c: Crypto)
    requires Sound(c, sa) && p.start + params.cipherAt + params.cipherLen <= p.mem.Length
    requires p.start + params.authAt + params.authLen <= p.mem.Length
    requires sa.ah.Some? ==> p.start + params.icvAt + sa.ah.value.icvLen <= p.mem.Length
    modifies p.mem
    ensures var m := old(p.mem[..]);
      var m1 := if sa.esp.Some? then Splice(m, p.start + params.cipherAt, c.enc(sa.esp.value.iv, View(m, p.start + params.cipherAt, params.cipherLen))) else m;
      p.mem[..] == if sa.ah.Some? then Splice(m1, p.start + params.icvAt, c.mac(View(m1, p.start + params.authAt, params.authLen))) else m1
  {
    hide Splice, View;
    if sa.esp.Some? {
      var x := Bytes(p.mem, p.start + params.cipherAt, params.cipherLen);
      Write(p.mem, p.start + params.cipherAt, c.enc(sa.esp.value.iv, x));
    }
    if sa.ah.Some? {
      var x := Bytes(p.mem, p.start + params.authAt, params.authLen);
      Write(p.mem, p.start + params.icvAt, c.mac(x));
    }
  }

  /** do_ipsec_out_finish */
  method OutFinish(p: Packet, ctx: Ctx, c: Crypto, ok: bool) returns (v: Verdict)
    requires p.Ip() + IP_LEN <= p.mem.Length
    modifies p.mem
    ensures v == if ok then Continue else Dropped
    ensures p.mem[..] == if ok then FinishMem(old(p.mem[..]), p.Ip(), c, ctx.f) else old(p.mem[..])
  {
    if !ok {
      return Dropped;
    }
    FinalizeHeader(p.mem, p.Ip(), c, ctx.f);
    v := Continue;
  }

  // ---------- the receiving side ----------

  /** The context of a packet that carries the headers of its SA. */
  function InCtx(sa: Sa, l3: nat, h: IpHeader, src: u32, dst: u32): Ctx
    requires TotLen(h) >= IP_LEN + sa.HdrLen()
  {
    var ah, esp := sa.ah.Some?, sa.esp.Some?;
    Ctx(MutableOf(h), if ah then l3 + IP_LEN else 0, if esp then l3 + IP_LEN + sa.AhLen() else 0, sa.HdrLen(), 0,
        Params(if esp then l3 + IP_LEN + sa.HdrLen() else 0, if esp then TotLen(h) - IP_LEN - sa.HdrLen() else 0,
               if ah then l3 else 0, if ah then TotLen(h) else 0, if ah then l3 + IP_LEN + AH_LEN else 0,
               if esp then Some(l3 + IP_LEN + sa.AhLen() + ESP_LEN) else None), src, dst)
  }

  /** The context do_ipsec_in_classify builds from the headers it found, whatever the entry configures:
      only the IV length comes from the entry. */
  function LocatedCtx(sa: Sa, l3: nat, h: IpHeader, loc: Located, src: u32, dst: u32): Ctx
    requires loc.esp ==> IP_LEN + loc.hdrLen + IvLen(sa) <= TotLen(h)
  {
    var hdrLen := loc.hdrLen + IvLen(sa);
    Ctx(MutableOf(h), if loc.ah then l3 + IP_LEN else 0, if loc.esp then l3 + IP_LEN + loc.espAt else 0, hdrLen, 0,
        Params(if loc.esp then l3 + IP_LEN + hdrLen else 0, if loc.esp then TotLen(h) - IP_LEN - hdrLen else 0,
               if loc.ah then l3 else 0, if loc.ah then TotLen(h) else 0, if loc.ah then l3 + IP_LEN + AH_LEN else 0,
               if loc.esp then Some(l3 + IP_LEN + loc.espAt + ESP_LEN) else None), src, dst)
  }

  /** The ranges of a decoding request lie in the buffer. */
  predicate InBuffer(params: Params, start: nat, sa: Sa, size: nat) {
    && start + params.cipherAt + params.cipherLen <= size
    && start + params.authAt + params.authLen <= size
    && (sa.ah.Some? ==> start + params.icvAt + sa.ah.value.icvLen <= size)
    && (sa.esp.Some? && params.ivAt.Some? ==> start + params.ivAt.value + IvLen(sa) <= size)
  }

  /** What a decoding session of the SA authenticates: the range of the request with its ICV cleared. */
  function Cleared(m: Mem, start: nat, params: Params, sa: Sa): (r: Mem)
    requires InBuffer(params, start, sa, |m|)
    ensures |r| == |m|
  {
    if sa.ah.Some? then Splice(m, start + params.icvAt, Zeros(sa.ah.value.icvLen)) else m
  }

  predicate Authentic(m: Mem, start: nat, params: Params, sa: Sa, c: Crypto)
    requires InBuffer(params, start, sa, |m|)
  {
    sa.ah.Some? ==>
      c.mac(View(Cleared(m, start, params, sa), start + params.authAt, params.authLen)) == View(m, start + params.icvAt, sa.ah.value.icvLen)
  }

  /** Memory after a decoding operation. */
  function Operated(m: Mem, start: nat, params: Params, sa: Sa, c: Crypto): (r: Mem)
    requires Sound(c, sa) && InBuffer(params, start, sa, |m|)
    ensures |r| == |m|
  {
    var m1 := Cleared(m, start, params, sa);
    if sa.esp.None? then m1
    else
      var iv := if params.ivAt.Some? then View(m1, start + params.ivAt.value, IvLen(sa)) else sa.esp.value.iv;
      Splice(m1, start + params.cipherAt, c.dec(iv, View(m1, start + params.cipherAt, params.cipherLen)))
  }

  /** For a packet that carries the headers of its entry, the context and the outcome are those of the
      receiving specification. */
  lemma LocatedIsExpected(m: Mem, start: nat, l3: nat, sa: Sa, c: Crypto, src: u32, dst: u32)
    requires Sound(c, sa) && Finds(m, start + l3, sa)
    requires IP_LEN + sa.HdrLen() <= TotLen(View(m, start + l3, IP_LEN)) <= |m| - (start + l3)
    ensures var o := start + l3;
      var h, loc := View(m, o, IP_LEN), Locate(m, o);
      && (loc.esp ==> IP_LEN + loc.hdrLen + IvLen(sa) <= TotLen(h))
      && LocatedCtx(sa, l3, h, loc, src, dst) == InCtx(sa, l3, h, src, dst)
      && var params := InCtx(sa, l3, h, src, dst).params;
      var m1 := InMem(m, o, sa.ah.Some?);
      && InBuffer(params, start, sa, |m|)
      && Authentic(m1, start, params, sa, c) == IcvGood(m1, o, sa, c, TotLen(h))
      && Operated(m1, start, params, sa, c) == DecodedMem(m, o, sa, c, TotLen(h))
  {
    hide View, Splice, ZeroMutable, MutableOf, TotLen;
  }

  /** locate_ipsec_headers */
  method LocateHeaders(a: array<u8>, o: nat) returns (ah: bool, esp: bool, espAt: nat, hdrLen: nat)
    requires o + IP_LEN + 2 <= a.Length
    ensures Located(ah, esp, espAt, hdrLen) == Locate(a[..], o)
  {
    ah, esp := false, false;
    var at := o + IP_LEN;
    espAt := 0;
    if a[o + 9] == IPPROTO_AH {
      ah := true;
      at := at + (a[o + IP_LEN + 1] as nat + 2) * 4;
      espAt := at - (o + IP_LEN);
      if a[o + IP_LEN] == IPPROTO_ESP {
        esp := true;
        at := at + ESP_LEN;
      }
    } else if a[o + 9] == IPPROTO_ESP {
      esp := true;
      at := at + ESP_LEN;
    }
    hdrLen := at - (o + IP_LEN);
  }

  /** The IPv4 header and the IPsec headers found behind it lie in the buffer up to their SPIs. */
  predicate Parsable(m: Mem, o: nat) {
    && o + IP_LEN + 2 <= |m|
    && (Locate(m, o).ah ==> o + IP_LEN + 8 <= |m|)
    && (Locate(m, o).esp ==> o + IP_LEN + Locate(m, o).espAt + 4 <= |m|)
  }

  /** Whether do_ipsec_in_classify takes the packet: it has an IPsec header and the entry matches. */
  predicate Takes(m: Mem, o: nat, sa: Sa)
    requires Parsable(m, o)
  {
    (Locate(m, o).ah || Locate(m, o).esp) && Matches(sa, m, o, Locate(m, o))
  }

  /** The lengths in the headers of the packet keep its crypto request within the buffer. */
  predicate Requestable(m: Mem, start: nat, l3: nat, sa: Sa)
    requires start + l3 + IP_LEN + 2 <= |m|
  {
    var h, loc := View(m, start + l3, IP_LEN), Locate(m, start + l3);
    && (loc.esp ==> IP_LEN + loc.hdrLen + IvLen(sa) <= TotLen(h))
    && InBuffer(LocatedCtx(sa, l3, h, loc, 0, 0).params, start, sa, |m|)
  }

  /** The outcome for a packet that is taken: its context, and the operation of the entry's session on
      the request built from the headers found. */
  ghost predicate Requested(m: Mem, m': Mem, start: nat, l3: nat, sa: Sa, src: u32, dst: u32, c: Crypto, ctx: Ctx, ok: bool)
    requires Sound(c, sa) && start + l3 + IP_LEN + 2 <= |m| && Requestable(m, start, l3, sa)
  {
    var o := start + l3;
    var h, loc := View(m, o, IP_LEN), Locate(m, o);
    var params := LocatedCtx(sa, l3, h, loc, 0, 0).params;
    && ctx == LocatedCtx(sa, l3, h, loc, src, dst)
    && ok == Authentic(InMem(m, o, loc.ah), start, params, sa, c)
    && m' == Operated(InMem(m, o, loc.ah), start, params, sa, c)
  }

  /** do_ipsec_in_classify with one entry, for src and dst, for the packet's addresses: a packet without
      IPsec headers, or for which the entry does not match, is left alone; for any other a request is
      built from the headers found and handed to the session of the entry. */
  method InClassify(p: Packet, sa: Sa, src: u32, dst: u32, c: Crypto) returns (skip: bool, ctx: Ctx, ok: bool)
    requires Sound(c, sa) && Parsable(p.mem[..], p.Ip())
    requires Takes(p.mem[..], p.Ip(), sa) ==> Requestable(p.mem[..], p.start, p.l3, sa)
    modifies p.mem
    ensures skip <==> !Takes(old(p.mem[..]), p.Ip(), sa)
    ensures skip ==> p.mem[..] == old(p.mem[..])
    ensures !skip ==> Requested(old(p.mem[..]), p.mem[..], p.start, p.l3, sa, src, dst, c, ctx, ok)
  {
    hide Splice, View, MutableOf, ZeroMutable, Locate, Matches, Requested, Requestable, TotLen;
    skip, ctx, ok := true, Ctx(Mutable(0, 0, 0), 0, 0, 0, 0, NoParams, 0, 0), false;
    var ah, esp, espAt, hdrLen := LocateHeaders(p.mem, p.Ip());
    if ah || esp {
      var found := Match(p.mem, p.Ip(), sa, ah, esp, espAt, hdrLen);
      if found {
        skip := false;
        ctx, ok := RequestDecoding(p, sa, src, dst, c, ah, esp, espAt, hdrLen);
      }
    }
  }

  /** The context, the cleared fields and the crypto request, from the addresses of the headers found. */
  method RequestDecoding(p: Packet, sa: Sa, src: u32, dst: u32, c: Crypto, ah: bool, esp: bool, espAt: nat, located: nat)
      returns (ctx: Ctx, ok: bool)
    requires Sound(c, sa) && p.Ip() + IP_LEN + 2 <= p.mem.Length
    requires Located(ah, esp, espAt, located) == Locate(p.mem[..], p.Ip()) && Requestable(p.mem[..], p.start, p.l3, sa)
    modifies p.mem
    ensures Requested(old(p.mem[..]), p.mem[..], p.start, p.l3, sa, src, dst, c, ctx, ok)
  {
    hide Splice, View, MutableOf, ZeroMutable, TotLen, Locate;
    var buf, ip := p.start, p.Ip();
    var h := HeaderAt(p.mem, ip);
    var ahAddress, espAddress := ip + IP_LEN, ip + IP_LEN + espAt;
    var hdrLen := located + if sa.esp.Some? then |sa.esp.value.iv| else 0;
    ctx := Ctx(MutableOf(h), if ah then ahAddress - buf else 0, if esp then espAddress - buf else 0, hdrLen, 0, NoParams, src, dst);
    var params := NoParams;
    if ah {
      ClearMutable(p.mem, ip);
      ClearedLength(h);
      ClearedHeader(old(p.mem[..]), ip);
      params := params.(authAt := ip - buf, authLen := TotLen(HeaderAt(p.mem, ip)), icvAt := ahAddress + AH_LEN - buf);
    }
    if esp {
      params := params.(cipherAt := (ip + IP_LEN) + hdrLen - buf, cipherLen := (TotLen(h) - IP_LEN) - hdrLen,
                        ivAt := Some(espAddress + ESP_LEN - buf));
    }
    ctx := ctx.(params := params);
    ok := Decode(p, params, sa, c);
  }

  lemma ClearedLength(h: IpHeader)
    ensures TotLen(ZeroMutable(h)) == TotLen(h)
  {
  }

  lemma ClearedHeader(m: Mem, o: nat)
    requires o + IP_LEN <= |m|
    ensures View(InMem(m, o, true), o, IP_LEN) == ZeroMutable(View(m, o, IP_LEN))
  {
    ViewSplice(m, o, ZeroMutable(View(m, o, IP_LEN)));
  }

  method Match(a: array<u8>, o: nat, sa: Sa, ah: bool, esp: bool, espAt: nat, hdrLen: nat) returns (r: bool)
    requires (ah ==> o + IP_LEN + 8 <= a.Length) && (esp ==> o + IP_LEN + espAt + 4 <= a.Length)
    ensures r == Matches(sa, a[..], o, Located(ah, esp, espAt, hdrLen))
  {
    if ah && (sa.ah.None? || sa.ah.value.spi != From32(Bytes(a, o + IP_LEN + 4, 4))) {
      return false;
    }
    if esp && (sa.esp.None? || sa.esp.value.spi != From32(Bytes(a, o + IP_LEN + espAt, 4))) {
      return false;
    }
    r := true;
  }

  /** A decoding crypto operation: the ICV is taken out, cleared and compared, then the range is
      deciphered with the IV the request names, or the session's. */
  method Decode(p: Packet, params: Params, sa: Sa, c: Crypto) returns (ok: bool)
    requires Sound(c, sa) && InBuffer(params, p.start, sa, p.mem.Length)
    modifies p.mem
    ensures ok == Authentic(old(p.mem[..]), p.start, params, sa, c)
    ensures p.mem[..] == Operated(old(p.mem[..]), p.start, params, sa, c)
  {
    hide Splice, View;
    ok := true;
    if sa.ah.Some? {
      var icv := Bytes(p.mem, p.start + params.icvAt, sa.ah.value.icvLen);
      Write(p.mem, p.start + params.icvAt, Zeros(sa.ah.value.icvLen));
      ok := c.mac(Bytes(p.mem, p.start + params.authAt, params.authLen)) == icv;
    }
    if sa.esp.Some? {
      var iv := sa.esp.value.iv;
      if params.ivAt.Some? {
        iv := Bytes(p.mem, p.start + params.ivAt.value, |sa.esp.value.iv|);
      }
      var x := Bytes(p.mem, p.start + params.cipherAt, params.cipherLen);
      Write(p.mem, p.start + params.cipherAt, c.dec(iv, x));
    }
  }

  /** The context names an AH behind the IPv4 header or none, and memory holds what it names. */
  predicate Finishable(m: Mem, o: nat, l3: nat, ctx: Ctx) {
    && o + IP_LEN < |m| && (ctx.ahOffset == 0 || ctx.ahOffset == l3 + IP_LEN)
    && (ctx.espOffset != 0 ==> 2 <= TotLen(View(m, o, IP_LEN)) <= |m| - o)
  }

  /** What do_ipsec_in_finish reads with this context. */
  function TailOf(m: Mem, o: nat, l3: nat, ctx: Ctx): Tail
    requires Finishable(m, o, l3, ctx)
  {
    ReadTail(m, o, ctx.ahOffset != 0, ctx.espOffset != 0)
  }

  /** The protocol and trailer, read where the context says the headers are; proto is stored back. */
  method ReadBack(p: Packet, ctx: Ctx) returns (tail: Tail)
    requires Finishable(p.mem[..], p.Ip(), p.l3, ctx)
    modifies p.mem
    ensures tail == TailOf(old(p.mem[..]), p.Ip(), p.l3, ctx)
    ensures p.mem[..] == Splice(old(p.mem[..]), p.Ip(), SetProto(View(old(p.mem[..]), p.Ip(), IP_LEN), tail.proto))
  {
    hide View, Splice, TotLen;
    var o := p.Ip();
    var h := HeaderAt(p.mem, o);
    var proto, trl := p.mem[o + 9], 0;
    if ctx.ahOffset != 0 {
      proto := p.mem[p.start + ctx.ahOffset];
    }
    if ctx.espOffset != 0 {
      var eop := o + TotLen(h);
      proto := p.mem[eop - 1];
      trl := p.mem[eop - 2] as nat + TRAILER_LEN;
    }
    tail := Tail(proto, trl);
    Put(p.mem, o, 9, proto);
  }

  /** do_ipsec_in_finish: a failed check drops the packet; an IPv4 payload is taken for a tunnel packet;
      any other packet is restored in place. */
  method InFinish(p: Packet, ctx: Ctx, c: Crypto, ok: bool) returns (v: Verdict, tunnel: bool)
    requires Finishable(p.mem[..], p.Ip(), p.l3, ctx)
    requires var h, tail := View(p.mem[..], p.Ip(), IP_LEN), TailOf(p.mem[..], p.Ip(), p.l3, ctx);
      if tail.proto == IPPROTO_IPV4
      then InnerFits(p.start, p.len, p.l2, p.l3, ctx.hdrLen, p.mem.Length)
      else p.Ip() + IP_LEN + ctx.hdrLen + TotLen(InHeader(c, h, tail.proto, ctx.hdrLen + tail.trl, ctx.f)) <= p.mem.Length
    modifies p`start, p`len, p`tail, p.mem
    ensures tunnel == (ok && TailOf(old(p.mem[..]), old(p.Ip()), p.l3, ctx).proto == IPPROTO_IPV4)
    ensures !ok ==> v.Dropped? && p.mem[..] == old(p.mem[..]) && p.len == old(p.len) && p.start == old(p.start)
    ensures ok && !tunnel ==> var tail := TailOf(old(p.mem[..]), old(p.Ip()), p.l3, ctx);
      && v.Continue? && p.start == old(p.start)
      && p.mem[..] == InFinishMem(old(p.mem[..]), old(p.Ip()), c, ctx.hdrLen, tail, ctx.f)
      && p.len == old(p.len) - (if ctx.hdrLen + tail.trl <= old(p.len) then ctx.hdrLen + tail.trl else 0)
    ensures tunnel ==> var tail := TailOf(old(p.mem[..]), old(p.Ip()), p.l3, ctx);
      var outer := IP_LEN + ctx.hdrLen;
      && p.start == old(p.start) + (if outer <= old(p.len) then outer else 0)
      && p.len == (var left := old(p.len) - (if outer <= old(p.len) then outer else 0); left - if tail.trl <= left then tail.trl else 0)
      && p.mem[..] == Splice(Splice(old(p.mem[..]), old(p.Ip()), SetProto(View(old(p.mem[..]), old(p.Ip()), IP_LEN), tail.proto)), p.start + p.l2 + 12, [0x00, 0x08])
      && v == if Admits(View(p.mem[..], p.Ip(), IP_LEN), ctx.src, ctx.dst) then Continue else Dropped
  {
    hide Splice, View, MutableOf, ZeroMutable, SetTotLen, Restored, ReadTail, TotLen, Admits;
    tunnel := false;
    if !ok {
      return Dropped, false;
    }
    var tail := ReadBack(p, ctx);
    if tail.proto == IPPROTO_IPV4 {
      p.PullHead(IP_LEN + ctx.hdrLen);
      p.PullTail(tail.trl);
      Write(p.mem, p.start + p.l2 + 12, [0x00, 0x08]);
      v := if Admits(HeaderAt(p.mem, p.Ip()), ctx.src, ctx.dst) then Continue else Dropped;
      return v, true;
    }
    v := Continue;
    Reassemble(p, ctx, c, tail, old(p.mem[..]));
    p.PullTail(ctx.hdrLen + tail.trl);
  }

  /** The inner Ethernet and IPv4 headers, where they are after the outer header is pulled, lie in the buffer. */
  predicate InnerFits(start: nat, len: nat, l2: nat, l3: nat, hdrLen: nat, size: nat) {
    var start' := start + if IP_LEN + hdrLen <= len then IP_LEN + hdrLen else 0;
    start' + l2 + 14 <= size && start' + l3 + IP_LEN <= size
  }

  /** Four bytes as a little-endian processor loads them. */
  function Loaded(b0: u8, b1: u8, b2: u8, b3: u8): nat {
    b0 as nat + 0x100 * b1 as nat + 0x1_0000 * b2 as nat + 0x100_0000 * b3 as nat
  }

  /** The inbound policy of do_ipsec_in_finish: the stored addresses are compared as loaded. */
  predicate Admits(h: IpHeader, src: u32, dst: u32) {
    Loaded(h[12], h[13], h[14], h[15]) == src && Loaded(h[16], h[17], h[18], h[19]) == dst
  }

  /** The entry's addresses are in host order, so a tunnel packet with exactly those addresses is
      admitted only if each of them reads the same from both ends. */
  lemma PolicyIff(h: IpHeader, src: u32, dst: u32)
    requires From32(h[12..16]) == src && From32(h[16..20]) == dst
    ensures Admits(h, src, dst) <==> h[12] == h[15] && h[13] == h[14] && h[16] == h[19] && h[17] == h[18]
  {
    LoadedIff(h[12..16]);
    LoadedIff(h[16..20]);
  }

  lemma LoadedIff(b: seq<u8>)
    requires |b| == 4
    ensures Loaded(b[0], b[1], b[2], b[3]) == From32(b) <==> b[0] == b[3] && b[1] == b[2]
  {
  }

  /** Header finalised, payload moved down. */
  method Reassemble(p: Packet, ctx: Ctx, c: Crypto, tail: Tail, ghost m: Mem)
    requires |m| == p.mem.Length && p.Ip() + IP_LEN <= |m|
    requires p.mem[..] == Splice(m, p.Ip(), SetProto(View(m, p.Ip(), IP_LEN), tail.proto))
    requires p.Ip() + IP_LEN + ctx.hdrLen + TotLen(InHeader(c, View(m, p.Ip(), IP_LEN), tail.proto, ctx.hdrLen + tail.trl, ctx.f)) <= |m|
    modifies p.mem
    ensures p.mem[..] == InFinishMem(m, p.Ip(), c, ctx.hdrLen, tail, ctx.f)
  {
    hide Splice, View, MutableOf, ZeroMutable, SetTotLen, Restored;
    var o := p.Ip();
    ghost var h := View(m, o, IP_LEN);
    ghost var h1 := SetProto(h, tail.proto);
    var gone := ctx.hdrLen + tail.trl;
    ghost var h2 := SetTotLen(h1, TotLen(h1) - gone);
    SameTotLen(h);
    SpliceTwice(m, o, h1, h2);
    AdjustLen(p.mem, o, -gone);
    SpliceTwice(m, o, h2, Restored(c, h2, ctx.f));
    FinalizeHeader(p.mem, o, c, ctx.f);
    SpliceTwice(m, o, Restored(c, h2, ctx.f), h2);
    MoveDown(p.mem, o + IP_LEN, o + IP_LEN + ctx.hdrLen, TotLen(HeaderAt(p.mem, o)));
  }

  // ---------- both directions, end to end ----------

  /** The sending side: a packet that is not dropped leaves as the protected form of what it was. */
  method Protect(p: Packet, sa: Sa, seqs: Counters, c: Crypto) returns (v: Verdict)
    requires Sendable(p.mem[..], p.Ip(), sa) && Sound(c, sa)
    modifies p`len, p`tail, p.mem, seqs
    ensures var n := DataLen(old(p.mem[..]), p.Ip());
      var grow := sa.HdrLen() + sa.TrlLen(n);
      && v == (if grow <= old(p.tail) then Continue else Dropped)
      && (v.Continue? ==>
            && p.len == old(p.len) + grow
            && Carries(p.mem[..], p.Ip(), Protected(c, sa, ClearOf(old(p.mem[..]), p.Ip(), sa), SeqNos(old(seqs.ah), old(seqs.esp)))))
  {
    hide Splice, View, Protected, OutMem, EncodeMem, Carries, Restored, MutableOf, ClearOf, OutCtx, Padded, TrailerAt;
    ghost var m, nos := p.mem[..], SeqNos(seqs.ah, seqs.esp);
    var h := HeaderAt(p.mem, p.Ip());
    OutCtxParts(sa, p.l3, h);
    var ctx;
    v, ctx := OutClassify(p, sa);
    if v.Dropped? {
      return;
    }
    OutSeq(p, ctx, seqs, h, sa, c);
    v := OutFinish(p, ctx, c, true);
    SendIsProtected(m, p.Ip(), sa, c, nos);
  }

  /** The receiving side: a protected packet in which only mutable fields changed on the way comes
      out with the payload and header it went in with. */
  method Unprotect(p: Packet, sa: Sa, src: u32, dst: u32, c: Crypto, ghost was: Clear, ghost nos: SeqNos) returns (v: Verdict)
    requires was.Valid(sa) && Sound(c, sa) && Fits(sa, was) && Survives(sa, Proto(was.h))
    requires Arrives(p.mem[..], p.Ip(), c, sa, was, nos) && p.Ip() + IP_LEN + sa.HdrLen() + TotLen(was.h) <= p.mem.Length
    requires sa.HdrLen() + sa.TrlLen(|was.data|) <= p.len
    modifies p`start, p`len, p`tail, p.mem
    ensures v.Continue? && p.start == old(p.start)
    ensures p.len == old(p.len) - sa.HdrLen() - sa.TrlLen(|was.data|)
    ensures p.Ip() + IP_LEN + |was.data| <= p.mem.Length
    ensures View(p.mem[..], p.Ip(), IP_LEN) == Restored(c, was.h, MutableOf(View(old(p.mem[..]), p.Ip(), IP_LEN)))
    ensures View(p.mem[..], p.Ip() + IP_LEN, |was.data|) == was.data
  {
    hide Splice, View, Locate, Matches, IcvGood, InMem, DecodedMem, ReadTail, InFinishMem, InHeader, Restored, MutableOf, TotLen, Arrives, ClearIcv, Authentic, Operated, InBuffer;
    ghost var r := p.mem[..];
    ghost var m, r' := RoundTrip(r, p.Ip(), c, sa, was, nos);
    LocatedIsExpected(r, p.start, p.l3, sa, c, src, dst);
    LocatedIsExpected(r, p.start, p.l3, sa, c, 0, 0);
    var skip, ctx, ok := InClassify(p, sa, src, dst, c);
    var tunnel;
    v, tunnel := InFinish(p, ctx, c, ok);
  }
}
