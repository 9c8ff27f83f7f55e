/** Packets that carry fewer IPsec headers than the entry they match configures: the lookup compares
    only the headers that are there, and the session runs all its algorithms. */
module IpsecMismatch {
  import opened Bits
  import opened Wrappers
  import opened PacketBytes
  import opened Ipsec
  import opened IpsecIn
  import opened IpsecPackets

  /** The entry without its ESP half. */
  function AhOnly(sa: Sa): Sa {
    sa.(esp := None)
  }

  /** An AH-only packet under an AH and ESP entry. */
  ghost predicate AhUnderBoth(r: Mem, o: nat, c: Crypto, sa: Sa, p: Clear, nos: SeqNos) {
    && sa.Valid() && sa.ah.Some? && sa.esp.Some? && Sound(c, sa)
    && p.Valid(AhOnly(sa)) && Fits(AhOnly(sa), p) && Arrives(r, o, c, AhOnly(sa), p, nos)
    && Proto(p.h) != IPPROTO_ESP && Proto(p.h) != IPPROTO_IPV4
  }

  /** The entry matches, and its IV length is added to the header length although the packet has no IV. */
  lemma AhTaken(r: Mem, start: nat, l3: nat, c: Crypto, sa: Sa, p: Clear, nos: SeqNos)
    requires AhUnderBoth(r, start + l3, c, sa, p, nos)
    ensures var o := start + l3;
      && Parsable(r, o) && Locate(r, o) == Located(true, false, sa.AhLen(), sa.AhLen()) && Takes(r, o, sa)
      && LocatedCtx(sa, l3, View(r, o, IP_LEN), Locate(r, o), 0, 0).hdrLen == sa.AhLen() + IvLen(sa)
  {
    hide View, Splice, ZeroMutable, MutableOf, TotLen, Locate, OutHeader, Restored;
    var o, only := start + l3, AhOnly(sa);
    var w := Unsigned(c, only, p, nos);
    ArrivedHeader(r, o, c, only, p, nos);
    Found(r, o, only, View(r, o, IP_LEN), Next(only, Proto(p.h)), nos.ah, IcvOf(c, only, w), nos.esp, w.c);
    AhFound(r, o);
  }

  lemma AhFound(r: Mem, o: nat)
    requires o + IP_LEN + 2 <= |r|
    ensures Locate(r, o).ah && !Locate(r, o).esp ==> Locate(r, o).hdrLen == Locate(r, o).espAt
  {
  }

  /** The packet is authenticated: the session deciphers an empty range. */
  lemma AhAuthenticated(r: Mem, start: nat, l3: nat, c: Crypto, sa: Sa, p: Clear, nos: SeqNos) returns (m: Mem)
    requires AhUnderBoth(r, start + l3, c, sa, p, nos)
    ensures var o, params := start + l3, LocatedCtx(sa, l3, View(r, start + l3, IP_LEN), Located(true, false, sa.AhLen(), sa.AhLen()), 0, 0).params;
      && o + IP_LEN <= |r| && InBuffer(params, start, sa, |r|)
      && Authentic(InMem(r, o, true), start, params, sa, c)
      && m == Operated(InMem(r, o, true), start, params, sa, c)
    ensures var o, w := start + l3, Unsigned(c, AhOnly(sa), p, nos);
      && |m| == |r| && SameButMutable(View(m, o, IP_LEN), w.h) && Parts(m, o, w.a, [], p.data)
  {
    hide View, Splice, ZeroMutable, MutableOf, TotLen, Locate, OutHeader, Restored;
    var o, only := start + l3, AhOnly(sa);
    m := ArrivedDecodes(r, o, c, only, p, nos);
    EmptyView(Cleared(InMem(r, o, true), start, LocatedCtx(sa, l3, View(r, o, IP_LEN), Located(true, false, sa.AhLen(), sa.AhLen()), 0, 0).params, sa), start);
    SpliceNothing(m, start);
  }

  lemma ShrunkLength(c: Crypto, x: IpHeader, proto: u8, shrink: nat, f: Mutable)
    ensures TotLen(InHeader(c, x, proto, shrink, f)) == (TotLen(x) - shrink) % 0x1_0000
  {
    var y := SetTotLen(SetProto(x, proto), TotLen(x) - shrink);
    assert TotLen(y) == (TotLen(x) - shrink) % 0x1_0000;
    assert Restored(c, y, f)[2] == y[2] && Restored(c, y, f)[3] == y[3];
  }

  /** The finished packet has lost the first bytes of its payload, as many as the configured IV has, and
      its total length is as much too small: it is right exactly when the IV is empty (modulo the width
      of the length field). */
  lemma AhLosesPayload(r: Mem, start: nat, l3: nat, c: Crypto, sa: Sa, p: Clear, nos: SeqNos, m: Mem) returns (r': Mem)
    requires AhUnderBoth(r, start + l3, c, sa, p, nos)
    requires var o, w := start + l3, Unsigned(c, AhOnly(sa), p, nos);
      |m| == |r| && SameButMutable(View(m, o, IP_LEN), w.h) && Parts(m, o, w.a, [], p.data)
    requires start + l3 + IP_LEN + sa.AhLen() + IvLen(sa) + (TotLen(p.h) - IvLen(sa)) % 0x1_0000 <= |r|
    ensures var o, f, hdrLen := start + l3, MutableOf(View(r, start + l3, IP_LEN)), sa.AhLen() + IvLen(sa);
      && o + IP_LEN < |m| && ReadTail(m, o, true, false) == Tail(Proto(p.h), 0)
      && o + IP_LEN + hdrLen + TotLen(InHeader(c, View(m, o, IP_LEN), Proto(p.h), hdrLen, f)) <= |m|
      && r' == InFinishMem(m, o, c, hdrLen, Tail(Proto(p.h), 0), f)
    ensures TotLen(View(r', start + l3, IP_LEN)) == (TotLen(p.h) - IvLen(sa)) % 0x1_0000
    ensures TotLen(View(r', start + l3, IP_LEN)) == TotLen(p.h) <==> IvLen(sa) % 0x1_0000 == 0
    ensures IvLen(sa) <= |p.data| ==> View(r', start + l3 + IP_LEN, |p.data| - IvLen(sa)) == p.data[IvLen(sa)..]
  {
    hide View, Splice, ZeroMutable, OutHeader, Restored, MutableOf, InFinishMem, ReadTail;
    var o, only, w := start + l3, AhOnly(sa), Unsigned(c, AhOnly(sa), p, nos);
    var x, f, tail, hdrLen := View(m, o, IP_LEN), MutableOf(View(r, o, IP_LEN)), Tail(Proto(p.h), 0), sa.AhLen() + IvLen(sa);
    DecodedTail(m, o, c, only, p, nos);
    ShrunkLength(c, x, Proto(p.h), hdrLen, f);
    hide TotLen;
    SameResidue(TotLen(p.h), IvLen(sa));
    r' := InFinishMem(m, o, c, hdrLen, tail, f);
    FinishedHeader(m, o, c, hdrLen, tail, f);
    if IvLen(sa) <= |p.data| {
      var rest := p.data[IvLen(sa)..];
      PayloadTail(m, o, w.a, p.data, IvLen(sa));
      hide InHeader;
      MovedBack(m, o, c, hdrLen, tail, f, rest);
    }
  }

  lemma SameResidue(a: nat, k: nat)
    requires a < 0x1_0000
    ensures (a - k) % 0x1_0000 == a <==> k % 0x1_0000 == 0
    ensures k <= a ==> (a - k) % 0x1_0000 == a - k
  {
  }

  lemma PayloadTail(m: Mem, o: nat, a: seq<u8>, data: seq<u8>, k: nat)
    requires Parts(m, o, a, [], data) && k <= |data|
    ensures View(m, o + IP_LEN + |a| + k, |data| - k) == data[k..]
  {
    var v := View(m, o + IP_LEN + |a|, |data|);
    assert View(m, o + IP_LEN + |a| + k, |data| - k) == v[k..];
  }

  lemma FinishedHeader(m: Mem, o: nat, c: Crypto, hdrLen: nat, tail: Tail, f: Mutable)
    requires o + IP_LEN <= |m|
    requires o + IP_LEN + hdrLen + TotLen(InHeader(c, View(m, o, IP_LEN), tail.proto, hdrLen + tail.trl, f)) <= |m|
    ensures View(InFinishMem(m, o, c, hdrLen, tail, f), o, IP_LEN) == InHeader(c, View(m, o, IP_LEN), tail.proto, hdrLen + tail.trl, f)
  {
    hide View, Splice, InHeader, TotLen;
    var h := InHeader(c, View(m, o, IP_LEN), tail.proto, hdrLen + tail.trl, f);
    var m1 := Splice(m, o, h);
    ViewSplice(m, o, h);
    ViewApart(m1, o + IP_LEN, View(m1, o + IP_LEN + hdrLen, TotLen(h)), o, IP_LEN);
  }

  /** An ESP-only packet under an AH and ESP entry: the request has no range to authenticate, so the check
      compares the start of the frame with the MAC of nothing, and the packet is dropped unless they agree. */
  lemma EspUnderBoth(m: Mem, start: nat, l3: nat, c: Crypto, sa: Sa)
    requires sa.ah.Some? && sa.esp.Some? && start + l3 + IP_LEN + 2 <= |m| && Requestable(m, start, l3, sa)
    requires Locate(m, start + l3).esp && !Locate(m, start + l3).ah
    ensures start + sa.ah.value.icvLen <= |m|
    ensures var params := LocatedCtx(sa, l3, View(m, start + l3, IP_LEN), Locate(m, start + l3), 0, 0).params;
      Authentic(InMem(m, start + l3, false), start, params, sa, c) <==> c.mac([]) == View(m, start, sa.ah.value.icvLen)
  {
    hide Splice, View, Locate, TotLen;
    var params := LocatedCtx(sa, l3, View(m, start + l3, IP_LEN), Locate(m, start + l3), 0, 0).params;
    EmptyView(Cleared(m, start, params, sa), start);
  }
}
