/** The receiving path and the round trip: which packets come back out as they went in. */
module IpsecIn {
  import opened Bits
  import opened Wrappers
  import opened PacketBytes
  import opened Ipsec

  /** What locate_ipsec_headers finds behind the IPv4 header at o; offsets are from its end. */
  datatype Located = Located(ah: bool, esp: bool, espAt: nat, hdrLen: nat)

  function Locate(m: Mem, o: nat): Located
    requires o + IP_LEN + 2 <= |m|
  {
    var proto := m[o + 9];
    if proto == IPPROTO_AH then
      var ahLen: nat := (m[o + IP_LEN + 1] as nat + 2) * 4;
      if m[o + IP_LEN] == IPPROTO_ESP then Located(true, true, ahLen, ahLen + ESP_LEN)
      else Located(true, false, ahLen, ahLen)
    else if proto == IPPROTO_ESP then Located(false, true, 0, ESP_LEN)
    else Located(false, false, 0, 0)
  }

  /** The test of find_ipsec_cache_entry_in on an entry for the packet's addresses. */
  predicate Matches(sa: Sa, m: Mem, o: nat, loc: Located)
    requires loc.ah ==> o + IP_LEN + 8 <= |m|
    requires loc.esp ==> o + IP_LEN + loc.espAt + 4 <= |m|
  {
    && (loc.ah ==> sa.ah.Some? && sa.ah.value.spi == From32(View(m, o + IP_LEN + 4, 4)))
    && (loc.esp ==> sa.esp.Some? && sa.esp.value.spi == From32(View(m, o + IP_LEN + loc.espAt, 4)))
  }

  // ---------- decoding ----------

  /** do_ipsec_in_classify before its crypto request: mutable fields zeroed if there is an AH. */
  function InMem(m: Mem, o: nat, ah: bool): (r: Mem)
    requires o + IP_LEN <= |m|
    ensures |r| == |m|
  {
    if ah then Splice(m, o, ZeroMutable(View(m, o, IP_LEN))) else m
  }

  /** The bytes authenticated on receipt: the ICV field is cleared first. */
  function ClearIcv(m: Mem, o: nat, sa: Sa): (r: Mem)
    requires o + IP_LEN + sa.AhLen() <= |m|
    ensures |r| == |m|
  {
    if sa.ah.Some? then Splice(m, o + IP_LEN + AH_LEN, Zeros(sa.ah.value.icvLen)) else m
  }

  predicate IcvGood(m: Mem, o: nat, sa: Sa, c: Crypto, len: nat)
    requires o + IP_LEN + sa.AhLen() <= |m| && o + len <= |m|
  {
    sa.ah.Some? ==> c.mac(View(ClearIcv(m, o, sa), o, len)) == View(m, o + IP_LEN + AH_LEN, sa.ah.value.icvLen)
  }

  /** Deciphering the last n bytes of the datagram with the IV it carries. */
  function DecipherMem(m: Mem, o: nat, sa: Sa, c: Crypto, n: nat): (r: Mem)
    requires Sound(c, sa) && o + IP_LEN + sa.HdrLen() + n <= |m|
    ensures |r| == |m|
  {
    if sa.esp.None? then m
    else
      var d := o + IP_LEN + sa.HdrLen();
      Splice(m, d, c.dec(View(m, d - |sa.esp.value.iv|, |sa.esp.value.iv|), View(m, d, n)))
  }

  /** A decoding crypto operation on a datagram of the given length: authentication, then deciphering. */
  function DecodedMem(m: Mem, o: nat, sa: Sa, c: Crypto, len: nat): (r: Mem)
    requires Sound(c, sa) && IP_LEN + sa.HdrLen() <= len && o + len <= |m|
    ensures |r| == |m|
  {
    DecipherMem(ClearIcv(InMem(m, o, sa.ah.Some?), o, sa), o, sa, c, len - IP_LEN - sa.HdrLen())
  }

  // ---------- the receiver finds what the sender wrote ----------

  /** Two headers that differ at most in what routers may change. */
  predicate SameButMutable(h: IpHeader, h': IpHeader) {
    ZeroMutable(h) == ZeroMutable(h')
  }

  lemma MutableOnly(h: IpHeader, h': IpHeader)
    requires SameButMutable(h, h')
    ensures TotLen(h) == TotLen(h') && Proto(h) == Proto(h')
  {
    assert forall k | k in {2, 3, 9} :: ZeroMutable(h)[k] == h[k] && ZeroMutable(h')[k] == h'[k];
  }

  lemma OutHeaderFields(sa: Sa, h: IpHeader, grow: nat)
    requires TotLen(h) + grow < 0x1_0000
    ensures TotLen(OutHeader(sa, h, grow)) == TotLen(h) + grow
    ensures Proto(OutHeader(sa, h, grow)) == if sa.ah.Some? then IPPROTO_AH else Next(sa, Proto(h))
    ensures sa.ah.Some? ==> ZeroMutable(OutHeader(sa, h, grow)) == OutHeader(sa, h, grow)
  {
  }

  lemma RestoredFields(c: Crypto, h: IpHeader, f: Mutable)
    ensures SameButMutable(Restored(c, h, f), h)
  {
  }

  /** The headers are found where the sender put them, and the entry matches, unless an AH-only
      packet carries ESP as its payload protocol. */
  lemma Found(r: Mem, p: nat, sa: Sa, h: IpHeader, next: u8, no: u32, icv: seq<u8>, e: u32, body: seq<u8>)
    requires sa.Valid() && (sa.ah.Some? ==> |icv| == sa.ah.value.icvLen) && p + IP_LEN + 2 <= |r|
    requires View(r, p, IP_LEN) == h && Parts(r, p, AhPart(sa, next, no, icv), EspPart(sa, Be32(e)), body)
    requires Proto(h) == if sa.ah.Some? then IPPROTO_AH else IPPROTO_ESP
    requires sa.esp.Some? ==> next == IPPROTO_ESP
    ensures var loc := Locate(r, p);
      && loc.ah == sa.ah.Some? && loc.espAt == sa.AhLen()
      && loc.esp == (sa.esp.Some? || next == IPPROTO_ESP)
      && (loc.esp == sa.esp.Some? ==> Matches(sa, r, p, loc) && loc.hdrLen + IvLen(sa) == sa.HdrLen())
  {
    hide View, AhPart, EspPart, From32, Be32, Locate;
    ProtoByte(r, p);
    if sa.ah.Some? {
      FoundAh(r, p, sa, next, no, icv, EspPart(sa, Be32(e)), body);
      LocatedAh(r, p, sa.AhLen());
    } else {
      LocatedEsp(r, p);
    }
    if sa.esp.Some? {
      EspFields(r, p, sa, AhPart(sa, next, no, icv), e, body);
    }
  }

  lemma LocatedAh(r: Mem, p: nat, ahLen: nat)
    requires p + IP_LEN + 2 <= |r| && r[p + 9] == IPPROTO_AH && (r[p + IP_LEN + 1] as nat + 2) * 4 == ahLen
    ensures Locate(r, p) == if r[p + IP_LEN] == IPPROTO_ESP then Located(true, true, ahLen, ahLen + ESP_LEN) else Located(true, false, ahLen, ahLen)
  {
  }

  lemma LocatedEsp(r: Mem, p: nat)
    requires p + IP_LEN + 2 <= |r| && r[p + 9] == IPPROTO_ESP
    ensures Locate(r, p) == Located(false, true, 0, ESP_LEN)
  {
  }

  /** The AH half: where the AH ends, what it announces, and its SPI. */
  lemma FoundAh(r: Mem, p: nat, sa: Sa, next: u8, no: u32, icv: seq<u8>, e: seq<u8>, body: seq<u8>)
    requires sa.Valid() && sa.ah.Some? && |icv| == sa.ah.value.icvLen && Parts(r, p, AhPart(sa, next, no, icv), e, body)
    ensures r[p + IP_LEN] == next && (r[p + IP_LEN + 1] as nat + 2) * 4 == sa.AhLen()
    ensures From32(View(r, p + IP_LEN + 4, 4)) == sa.ah.value.spi
  {
    AhFields(r, p, sa, next, no, icv, e, body);
    hide View, AhPart, From32;
  }

  function IvLen(sa: Sa): nat {
    if sa.esp.Some? then |sa.esp.value.iv| else 0
  }

  lemma AhFields(r: Mem, p: nat, sa: Sa, next: u8, no: u32, icv: seq<u8>, e: seq<u8>, body: seq<u8>)
    requires sa.Valid() && sa.ah.Some? && |icv| == sa.ah.value.icvLen && Parts(r, p, AhPart(sa, next, no, icv), e, body)
    ensures r[p + IP_LEN] == next && r[p + IP_LEN + 1] == 1 + sa.ah.value.icvLen / 4
    ensures From32(View(r, p + IP_LEN + 4, 4)) == sa.ah.value.spi
    ensures View(r, p + IP_LEN + AH_LEN, sa.ah.value.icvLen) == icv
  {
    var a := AhPart(sa, next, no, icv);
    var v := View(r, p + IP_LEN, |a|);
    assert v[0] == r[p + IP_LEN] && v[1] == r[p + IP_LEN + 1];
    SubView(r, p + IP_LEN, a, 0, |a|, 4, 4) by { assert View(a, 0, |a|) == a; }
    assert View(a, 4, 4) == Be32(sa.ah.value.spi);
    Be32RoundTrip(sa.ah.value.spi);
    SubView(r, p + IP_LEN, a, 0, |a|, AH_LEN, |icv|) by { assert View(a, 0, |a|) == a; }
    assert View(a, AH_LEN, |icv|) == icv;
  }

  lemma EspFields(r: Mem, p: nat, sa: Sa, a: seq<u8>, e: u32, body: seq<u8>)
    requires sa.esp.Some? && Parts(r, p, a, EspPart(sa, Be32(e)), body)
    ensures From32(View(r, p + IP_LEN + |a|, 4)) == sa.esp.value.spi
    ensures View(r, p + IP_LEN + |a| + ESP_LEN, |sa.esp.value.iv|) == sa.esp.value.iv
  {
    var x := EspPart(sa, Be32(e));
    assert View(x, 0, |x|) == x;
    SubView(r, p + IP_LEN + |a|, x, 0, |x|, 0, 4);
    assert View(x, 0, 4) == Be32(sa.esp.value.spi);
    Be32RoundTrip(sa.esp.value.spi);
    SubView(r, p + IP_LEN + |a|, x, 0, |x|, ESP_LEN, |sa.esp.value.iv|);
    assert View(x, ESP_LEN, |sa.esp.value.iv|) == sa.esp.value.iv;
  }

  /** The receiver authenticates exactly the bytes the sender authenticated. */
  lemma SameBytesSigned(r: Mem, p: nat, sa: Sa, next: u8, no: u32, icv: seq<u8>, e: seq<u8>, body: seq<u8>)
    requires sa.Valid() && sa.ah.Some? && |icv| == sa.ah.value.icvLen && |e| == sa.EspLen() && p + IP_LEN <= |r|
    requires Parts(r, p, AhPart(sa, next, no, icv), e, body)
    ensures var r1 := InMem(r, p, true);
      var r2 := ClearIcv(r1, p, sa);
      && Parts(r1, p, AhPart(sa, next, no, icv), e, body)
      && Parts(r2, p, AhPart(sa, next, no, ZeroIcv(sa)), e, body)
      && View(r2, p, IP_LEN) == ZeroMutable(View(r, p, IP_LEN))
      && View(r2, p, IP_LEN + sa.HdrLen() + |body|)
         == SignedBytes(Wire(ZeroMutable(View(r, p, IP_LEN)), AhPart(sa, next, no, ZeroIcv(sa)), e, body))
  {
    var a := AhPart(sa, next, no, icv);
    WriteHeader(r, p, a, e, body, ZeroMutable(View(r, p, IP_LEN)));
    var r1 := InMem(r, p, true);
    IcvWritten(r1, p, sa, next, no, icv, e, body, ZeroIcv(sa));
    Whole(ClearIcv(r1, p, sa), p, AhPart(sa, next, no, ZeroIcv(sa)), e, body);
  }

  lemma Deciphered(m: Mem, o: nat, sa: Sa, c: Crypto, a: seq<u8>, no: u32, plain: seq<u8>)
    requires Sound(c, sa) && |a| == sa.AhLen() && Parts(m, o, a, EspPart(sa, Be32(no)), Enciphered(c, sa, plain))
    ensures |Enciphered(c, sa, plain)| == |plain|
    ensures var m' := DecipherMem(m, o, sa, c, |plain|);
      Parts(m', o, a, EspPart(sa, Be32(no)), plain) && View(m', o, IP_LEN) == View(m, o, IP_LEN)
  {
    if sa.esp.Some? {
      EspFields(m, o, sa, a, no, Enciphered(c, sa, plain));
      WriteBody(m, o, a, EspPart(sa, Be32(no)), Enciphered(c, sa, plain), plain);
    }
  }

  // ---------- finishing ----------

  /** The protocol and trailer length do_ipsec_in_finish reads from the deciphered datagram. */
  datatype Tail = Tail(proto: u8, trl: nat)

  function ReadTail(m: Mem, o: nat, ah: bool, esp: bool): Tail
    requires o + IP_LEN < |m|
    requires esp ==> 2 <= TotLen(View(m, o, IP_LEN)) && o + TotLen(View(m, o, IP_LEN)) <= |m|
  {
    if esp then
      var eop := o + TotLen(View(m, o, IP_LEN));
      Tail(m[eop - 1], m[eop - 2] as nat + TRAILER_LEN)
    else Tail(if ah then m[o + IP_LEN] else m[o + 9], 0)
  }

  /** The IPv4 header of a transport-mode packet that is passed on. */
  function InHeader(c: Crypto, h: IpHeader, proto: u8, shrink: nat, f: Mutable): IpHeader {
    Restored(c, SetTotLen(SetProto(h, proto), TotLen(h) - shrink), f)
  }

  /** The rest of do_ipsec_in_finish in transport mode. The move copies as many bytes as the whole
      datagram has, IPv4 header included. */
  function InFinishMem(m: Mem, o: nat, c: Crypto, hdrLen: nat, tail: Tail, f: Mutable): (r: Mem)
    requires o + IP_LEN <= |m|
    requires o + IP_LEN + hdrLen + TotLen(InHeader(c, View(m, o, IP_LEN), tail.proto, hdrLen + tail.trl, f)) <= |m|
    ensures |r| == |m|
  {
    var h := InHeader(c, View(m, o, IP_LEN), tail.proto, hdrLen + tail.trl, f);
    var m1 := Splice(m, o, h);
    Splice(m1, o + IP_LEN, View(m1, o + IP_LEN + hdrLen, TotLen(h)))
  }

  /** The tail the sender wrote is read back. */
  lemma TailRead(m: Mem, o: nat, sa: Sa, next: u8, no: u32, e: seq<u8>, data: seq<u8>, pad: seq<u8>, proto: u8)
    requires sa.Valid() && |e| == sa.EspLen() && |pad| < 0x100 && o + IP_LEN < |m|
    requires Parts(m, o, AhPart(sa, next, no, ZeroIcv(sa)), e, Plain(sa, data, pad, proto))
    requires TotLen(View(m, o, IP_LEN)) == IP_LEN + sa.HdrLen() + |Plain(sa, data, pad, proto)|
    requires sa.esp.None? ==> next == proto
    ensures ReadTail(m, o, sa.ah.Some?, sa.esp.Some?) == Tail(proto, |Plain(sa, data, pad, proto)| - |data|)
  {
    if sa.esp.Some? {
      var x, d := Plain(sa, data, pad, proto), o + IP_LEN + sa.HdrLen();
      var v := View(m, d, |x|);
      assert v[|x| - 1] == m[d + |x| - 1] && v[|x| - 2] == m[d + |x| - 2];
    } else {
      AhFields(m, o, sa, next, no, ZeroIcv(sa), e, Plain(sa, data, pad, proto));
    }
  }

  /** The payload is back behind the header. */
  lemma MovedBack(m: Mem, o: nat, c: Crypto, hdrLen: nat, tail: Tail, f: Mutable, data: seq<u8>)
    requires o + IP_LEN + hdrLen + |data| <= |m| && View(m, o + IP_LEN + hdrLen, |data|) == data
    requires var h := InHeader(c, View(m, o, IP_LEN), tail.proto, hdrLen + tail.trl, f);
      TotLen(h) == IP_LEN + |data| && o + IP_LEN + hdrLen + TotLen(h) <= |m|
    ensures var m' := InFinishMem(m, o, c, hdrLen, tail, f);
      && View(m', o, IP_LEN) == InHeader(c, View(m, o, IP_LEN), tail.proto, hdrLen + tail.trl, f)
      && View(m', o + IP_LEN, |data|) == data
  {
    hide Restored, SetTotLen;
    var h := InHeader(c, View(m, o, IP_LEN), tail.proto, hdrLen + tail.trl, f);
    var m1 := Splice(m, o, h);
    ViewSplice(m, o, h);
    ViewApart(m, o, h, o + IP_LEN + hdrLen, |data|);
    var moved := View(m1, o + IP_LEN + hdrLen, TotLen(h));
    ViewJoin(m1, o + IP_LEN + hdrLen, |data|, IP_LEN);
    ViewApart(m1, o + IP_LEN, moved, o, IP_LEN);
    ViewSplice(m1, o + IP_LEN, moved);
    var m' := Splice(m1, o + IP_LEN, moved);
    ViewJoin(m', o + IP_LEN, |data|, IP_LEN);
    assert View(m', o + IP_LEN, |data|) == moved[..|data|];
  }

  // ---------- the round trip ----------

  /** The packet at o carries the headers of the entry, and the entry matches. */
  ghost predicate Finds(r: Mem, o: nat, sa: Sa) {
    && o + IP_LEN + sa.HdrLen() <= |r| && o + IP_LEN + 2 <= |r|
    && var loc := Locate(r, o);
    && loc.ah == sa.ah.Some? && loc.esp == sa.esp.Some? && loc.espAt <= sa.AhLen() && Matches(sa, r, o, loc)
    && loc.hdrLen + IvLen(sa) == sa.HdrLen()
  }

  /** The datagram when do_ipsec_in_finish gets it: authenticated and deciphered. */
  ghost predicate Decodes(r: Mem, o: nat, sa: Sa, c: Crypto, r': Mem)
    requires Sound(c, sa)
  {
    && Finds(r, o, sa)
    && var h, ah := View(r, o, IP_LEN), sa.ah.Some?;
    && IP_LEN + sa.HdrLen() <= TotLen(h) && o + TotLen(h) <= |r|
    && IcvGood(InMem(r, o, ah), o, sa, c, TotLen(h))
    && r' == DecodedMem(r, o, sa, c, TotLen(h))
  }

  /** do_ipsec_in_finish in transport mode turns m into r' and makes the packet `gone` bytes shorter. */
  ghost predicate Finishes(m: Mem, o: nat, sa: Sa, c: Crypto, f: Mutable, r': Mem, gone: nat) {
    && o + IP_LEN < |m|
    && (sa.esp.Some? ==> 2 <= TotLen(View(m, o, IP_LEN)) && o + TotLen(View(m, o, IP_LEN)) <= |m|)
    && var tail := ReadTail(m, o, sa.ah.Some?, sa.esp.Some?);
    && tail.proto != IPPROTO_IPV4 && gone == sa.HdrLen() + tail.trl
    && o + IP_LEN + sa.HdrLen() + TotLen(InHeader(c, View(m, o, IP_LEN), tail.proto, gone, f)) <= |m|
    && r' == InFinishMem(m, o, c, sa.HdrLen(), tail, f)
  }

  /** The whole receiving path, with m the memory between its two stages. */
  ghost predicate Decapsulates(r: Mem, o: nat, sa: Sa, c: Crypto, m: Mem, r': Mem, gone: nat)
    requires Sound(c, sa)
  {
    Decodes(r, o, sa, c, m) && Finishes(m, o, sa, c, MutableOf(View(r, o, IP_LEN)), r', gone)
  }

  /** Memory holds packet p on its way from sender to receiver: routers changed nothing but the
      mutable fields and the checksum. */
  ghost predicate Arrives(r: Mem, o: nat, c: Crypto, sa: Sa, p: Clear, nos: SeqNos)
    requires p.Valid(sa) && Sound(c, sa)
  {
    var w := Protected(c, sa, p, nos);
    o + IP_LEN <= |r| && SameButMutable(View(r, o, IP_LEN), w.h) && Parts(r, o, w.a, w.e, w.c)
  }

  /** The lengths fit the 16-bit total length. */
  predicate Fits(sa: Sa, p: Clear)
    requires p.Valid(sa)
  {
    TotLen(p.h) + sa.HdrLen() + sa.TrlLen(|p.data|) < 0x1_0000
  }

  lemma ArrivedHeader(r: Mem, o: nat, c: Crypto, sa: Sa, p: Clear, nos: SeqNos)
    requires p.Valid(sa) && Sound(c, sa) && Fits(sa, p) && Arrives(r, o, c, sa, p, nos)
    ensures var h, w := View(r, o, IP_LEN), Unsigned(c, sa, p, nos);
      && TotLen(h) == TotLen(p.h) + sa.HdrLen() + sa.TrlLen(|p.data|)
      && Proto(h) == (if sa.ah.Some? then IPPROTO_AH else IPPROTO_ESP)
      && SameButMutable(h, w.h)
      && (sa.ah.Some? ==> ZeroMutable(h) == w.h)
  {
    hide ZeroMutable, OutHeader, Restored, View;
    var w := Unsigned(c, sa, p, nos);
    var grow := sa.HdrLen() + sa.TrlLen(|p.data|);
    RestoredFields(c, w.h, MutableOf(p.h));
    OutHeaderFields(sa, p.h, grow);
    MutableOnly(View(r, o, IP_LEN), w.h);
  }

  /** A packet that arrived is authenticated and deciphered to what the sender enciphered. */
  lemma ArrivedDecodes(r: Mem, o: nat, c: Crypto, sa: Sa, p: Clear, nos: SeqNos) returns (m: Mem)
    requires p.Valid(sa) && Sound(c, sa) && Fits(sa, p) && Arrives(r, o, c, sa, p, nos)
    requires sa.esp.Some? || Proto(p.h) != IPPROTO_ESP
    ensures Decodes(r, o, sa, c, m) && |m| == |r|
    ensures var w := Unsigned(c, sa, p, nos);
      && SameButMutable(View(m, o, IP_LEN), w.h)
      && Parts(m, o, w.a, w.e, Plain(sa, p.data, p.pad, Proto(p.h)))
  {
    hide View, ZeroMutable, Splice, OutHeader, Restored, Locate, Matches, InMem, ClearIcv, DecipherMem, SetMutable, MutableOf, EncodeLen;
    var w, x := Unsigned(c, sa, p, nos), Protected(c, sa, p, nos);
    var next, plain := Next(sa, Proto(p.h)), Plain(sa, p.data, p.pad, Proto(p.h));
    var icv := IcvOf(c, sa, w);
    ArrivedHeader(r, o, c, sa, p, nos);
    Found(r, o, sa, View(r, o, IP_LEN), next, nos.ah, icv, nos.esp, w.c);
    m := Authenticated(r, o, c, sa, next, nos, icv, plain, w.h);
  }

  /** Authentication, then deciphering. */
  lemma Authenticated(r: Mem, o: nat, c: Crypto, sa: Sa, next: u8, nos: SeqNos, icv: seq<u8>, plain: seq<u8>, h: IpHeader) returns (m: Mem)
    requires sa.Valid() && Sound(c, sa) && o + IP_LEN <= |r| && SameButMutable(View(r, o, IP_LEN), h)
    requires sa.ah.Some? ==> ZeroMutable(View(r, o, IP_LEN)) == h
    requires icv == IcvOf(c, sa, Frame(c, sa, h, next, nos, plain))
    requires Parts(r, o, AhPart(sa, next, nos.ah, icv), EspPart(sa, Be32(nos.esp)), Enciphered(c, sa, plain))
    ensures |Enciphered(c, sa, plain)| == |plain|
    ensures IcvGood(InMem(r, o, sa.ah.Some?), o, sa, c, IP_LEN + sa.HdrLen() + |plain|)
    ensures m == DecodedMem(r, o, sa, c, IP_LEN + sa.HdrLen() + |plain|)
    ensures |m| == |r| && SameButMutable(View(m, o, IP_LEN), h)
    ensures Parts(m, o, AhPart(sa, next, nos.ah, ZeroIcv(sa)), EspPart(sa, Be32(nos.esp)), plain)
  {
    hide View, ZeroMutable, Splice, SetMutable, AhPart, EspPart, Be32;
    var e, body := EspPart(sa, Be32(nos.esp)), Enciphered(c, sa, plain);
    var m1 := ClearIcv(InMem(r, o, sa.ah.Some?), o, sa);
    if sa.ah.Some? {
      SameBytesSigned(r, o, sa, next, nos.ah, icv, e, body);
      AhFields(InMem(r, o, true), o, sa, next, nos.ah, icv, e, body);
    }
    Deciphered(m1, o, sa, c, AhPart(sa, next, nos.ah, ZeroIcv(sa)), nos.esp, plain);
    m := DecipherMem(m1, o, sa, c, |plain|);
  }

  /** The packets that survive: IPv4 as payload protocol is taken for a tunnel, and an AH-only packet
      with ESP as payload protocol is taken for AH over ESP. */
  predicate Survives(sa: Sa, proto: u8) {
    proto != IPPROTO_IPV4 && (sa.esp.Some? || proto != IPPROTO_ESP)
  }

  /** Undoing the changes to the header gives the header that was sent, with the mutable fields f
      and a fresh checksum. */
  lemma HeaderBack(c: Crypto, sa: Sa, h: IpHeader, x: IpHeader, grow: nat, f: Mutable)
    requires TotLen(h) + grow < 0x1_0000 && SameButMutable(x, OutHeader(sa, h, grow))
    ensures InHeader(c, x, Proto(h), grow, f) == Restored(c, h, f)
    ensures TotLen(Restored(c, h, f)) == TotLen(h)
  {
    hide ZeroMutable, SetTotLen, OutHeader, SetMutable, SetChecksum, TotLen;
    MutableOnly(x, OutHeader(sa, h, grow));
    OutHeaderFields(sa, h, grow);
    var y := SetTotLen(SetProto(x, Proto(h)), TotLen(h));
    SameElsewhere(sa, h, x, grow);
    TotLenBytes(SetProto(x, Proto(h)), h);
    MutableOver(y, h, f);
    RestoredFields(c, h, f);
    MutableOnly(Restored(c, h, f), h);
  }

  /** Setting the mutable fields and the checksum forgets what they were. */
  lemma MutableOver(y: IpHeader, h: IpHeader, f: Mutable)
    requires forall k :: 0 <= k < 20 && k !in {1, 6, 7, 8, 10, 11} ==> y[k] == h[k]
    ensures SetChecksum(SetMutable(y, f), 0) == SetChecksum(SetMutable(h, f), 0)
  {
  }

  /** The bytes the sender does not touch. */
  lemma SameElsewhere(sa: Sa, h: IpHeader, x: IpHeader, grow: nat)
    requires SameButMutable(x, OutHeader(sa, h, grow))
    ensures forall k :: 0 <= k < 20 && k !in {1, 2, 3, 6, 7, 8, 9, 10, 11} ==> x[k] == h[k]
  {
    forall k | 0 <= k < 20 && k !in {1, 2, 3, 6, 7, 8, 9, 10, 11} ensures x[k] == h[k] {
      assert ZeroMutable(x)[k] == ZeroMutable(OutHeader(sa, h, grow))[k];
    }
  }

  lemma TotLenBytes(x: IpHeader, h: IpHeader)
    ensures var y := SetTotLen(x, TotLen(h));
      y[2] == h[2] && y[3] == h[3] && forall k :: 0 <= k < 20 && k != 2 && k != 3 ==> y[k] == x[k]
  {
  }

  /** Transport-mode round trip: for every payload, SA and padding, a packet that arrives with only
      its mutable fields changed is authenticated, deciphered and restored in place: payload,
      protocol, total length and every other header field as sent, mutable fields as they arrived,
      checksum updated. The frame loses exactly what the sender added. */
  lemma RoundTrip(r: Mem, o: nat, c: Crypto, sa: Sa, p: Clear, nos: SeqNos) returns (m: Mem, r': Mem)
    requires p.Valid(sa) && Sound(c, sa) && Fits(sa, p) && Arrives(r, o, c, sa, p, nos)
    requires Survives(sa, Proto(p.h)) && o + IP_LEN + sa.HdrLen() + TotLen(p.h) <= |r|
    ensures Decapsulates(r, o, sa, c, m, r', sa.HdrLen() + sa.TrlLen(|p.data|))
    ensures |r'| == |r| && View(r', o, IP_LEN) == Restored(c, p.h, MutableOf(View(r, o, IP_LEN)))
    ensures View(r', o + IP_LEN, |p.data|) == p.data
  {
    hide View, Splice, ZeroMutable, OutHeader, Restored, Decodes, SetMutable, MutableOf, InFinishMem;
    var w, f, gone := Unsigned(c, sa, p, nos), MutableOf(View(r, o, IP_LEN)), sa.HdrLen() + sa.TrlLen(|p.data|);
    m := ArrivedDecodes(r, o, c, sa, p, nos);
    DecodedTail(m, o, c, sa, p, nos);
    HeaderBack(c, sa, p.h, View(m, o, IP_LEN), gone, f);
    var tail := Tail(Proto(p.h), sa.TrlLen(|p.data|));
    DataBehind(m, o, sa, w.a, w.e, p.data, p.pad, Proto(p.h));
    MovedBack(m, o, c, sa.HdrLen(), tail, f, p.data);
    r' := InFinishMem(m, o, c, sa.HdrLen(), tail, f);
  }

  lemma DecodedTail(m: Mem, o: nat, c: Crypto, sa: Sa, p: Clear, nos: SeqNos)
    requires p.Valid(sa) && Fits(sa, p) && o + IP_LEN <= |m|
    requires var w := Unsigned(c, sa, p, nos);
      SameButMutable(View(m, o, IP_LEN), w.h) && Parts(m, o, w.a, w.e, Plain(sa, p.data, p.pad, Proto(p.h)))
    ensures TotLen(View(m, o, IP_LEN)) == TotLen(p.h) + sa.HdrLen() + sa.TrlLen(|p.data|)
    ensures ReadTail(m, o, sa.ah.Some?, sa.esp.Some?) == Tail(Proto(p.h), sa.TrlLen(|p.data|))
  {
    hide View, ZeroMutable, OutHeader, SetMutable, ReadTail;
    MutableOnly(View(m, o, IP_LEN), Unsigned(c, sa, p, nos).h);
    OutHeaderFields(sa, p.h, sa.HdrLen() + sa.TrlLen(|p.data|));
    TailRead(m, o, sa, Next(sa, Proto(p.h)), nos.ah, EspPart(sa, Be32(nos.esp)), p.data, p.pad, Proto(p.h));
  }

  lemma DataBehind(m: Mem, o: nat, sa: Sa, a: seq<u8>, e: seq<u8>, data: seq<u8>, pad: seq<u8>, proto: u8)
    requires |pad| < 0x100 && Parts(m, o, a, e, Plain(sa, data, pad, proto)) && |a| + |e| == sa.HdrLen()
    ensures o + IP_LEN + sa.HdrLen() + |data| <= |m| && View(m, o + IP_LEN + sa.HdrLen(), |data|) == data
  {
    var x := Plain(sa, data, pad, proto);
    var d := o + IP_LEN + sa.HdrLen();
    ViewJoin(m, d, |data|, |x| - |data|);
    assert View(m, d, |x|)[..|data|] == data;
  }

  /** Only these packets: any other is passed on still encapsulated or handled as a tunnel packet. */
  lemma OnlySurvivors(r: Mem, o: nat, c: Crypto, sa: Sa, p: Clear, nos: SeqNos)
    requires p.Valid(sa) && Sound(c, sa) && Fits(sa, p) && Arrives(r, o, c, sa, p, nos) && !Survives(sa, Proto(p.h))
    ensures forall m, r', gone :: !Decapsulates(r, o, sa, c, m, r', gone)
  {
    hide View, ZeroMutable, OutHeader, SetMutable, ReadTail, MutableOf, InFinishMem, Restored;
    if sa.esp.None? && Proto(p.h) == IPPROTO_ESP {
      TakenForEsp(r, o, c, sa, p, nos);
    } else {
      var m := ArrivedDecodes(r, o, c, sa, p, nos);
      DecodedTail(m, o, c, sa, p, nos);
      forall m', r', gone ensures !Decapsulates(r, o, sa, c, m', r', gone) {
        assert Decodes(r, o, sa, c, m') ==> m' == m;
      }
    }
  }

  /** An AH-only packet that carries ESP matches no AH-only entry: it skips IPsec processing. */
  lemma TakenForEsp(r: Mem, o: nat, c: Crypto, sa: Sa, p: Clear, nos: SeqNos)
    requires p.Valid(sa) && Sound(c, sa) && Fits(sa, p) && Arrives(r, o, c, sa, p, nos)
    requires sa.esp.None? && Proto(p.h) == IPPROTO_ESP
    ensures o + IP_LEN + 2 <= |r| && Locate(r, o).esp
  {
    hide View, ZeroMutable, OutHeader, SetMutable, MutableOf, Restored, Locate;
    var w := Unsigned(c, sa, p, nos);
    ArrivedHeader(r, o, c, sa, p, nos);
    Found(r, o, sa, View(r, o, IP_LEN), Next(sa, Proto(p.h)), nos.ah, IcvOf(c, sa, w), nos.esp, w.c);
  }

  /** If nothing changed on the way and the checksum was right, the header is back bit for bit. */
  lemma SameHeader(c: Crypto, h: IpHeader)
    requires SetChecksum(h, c.csum(SetChecksum(h, 0))) == h
    ensures Restored(c, h, MutableOf(h)) == h
  {
    assert SetMutable(h, MutableOf(h)) == h;
    var h1 := SetChecksum(h, 0);
    assert SetChecksum(h1, c.csum(h1)) == SetChecksum(h, c.csum(h1));
  }
}
