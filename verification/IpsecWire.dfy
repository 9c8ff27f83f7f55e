/** The protected packet byte by byte, in the numbers of RFC 4302 and RFC 4303. */
module IpsecWire {
  import opened Bits
  import opened Wrappers
  import opened PacketBytes
  import opened Ipsec
  import opened IpsecIn

  function Bytes(w: Wire): seq<u8> {
    w.h + w.a + w.e + w.c
  }

  /** The big-endian number in four bytes from i on. */
  function Word(b: seq<u8>, i: nat): nat
    requires i + 4 <= |b|
  {
    0x100_0000 * b[i] as nat + 0x1_0000 * b[i + 1] as nat + 0x100 * b[i + 2] as nat + b[i + 3] as nat
  }

  lemma WordOfBe32(n: u32)
    ensures Word(Be32(n), 0) == n
  {
    Be32RoundTrip(n);
    var b := Be32(n);
    hide Be32;
    assert From32(b) == (b[0] as nat * 0x100 + b[1] as nat) * 0x1_0000 + (b[2] as nat * 0x100 + b[3] as nat);
  }

  lemma WordIn(x: seq<u8>, n: u32, y: seq<u8>)
    ensures Word(x + Be32(n) + y, |x|) == n
  {
    WordOfBe32(n);
    var b, z := Be32(n), x + Be32(n) + y;
    assert z[|x|] == b[0] && z[|x| + 1] == b[1] && z[|x| + 2] == b[2] && z[|x| + 3] == b[3];
    hide Be32;
  }

  // ---------- the parts ----------

  /** The outer header: the length of the whole packet, protocol 51 for AH or 50 for ESP alone, a checksum over the
      rest, and everything else as it was. */
  ghost predicate HeaderFormat(c: Crypto, ah: bool, h: IpHeader, w: Wire) {
    && 0x100 * w.h[2] as nat + w.h[3] as nat == |Bytes(w)| % 0x1_0000
    && w.h[9] == (if ah then 51 else 50)
    && 0x100 * w.h[10] as nat + w.h[11] as nat == c.csum(w.h[10 := 0][11 := 0])
    && forall i :: 0 <= i < 20 && i !in {2, 3, 9, 10, 11} ==> w.h[i] == h[i]
  }

  /** Section 2 of RFC 4302: next header, length in words less two, two reserved bytes, SPI, sequence number, ICV. */
  predicate AhFormat(ah: Ah, esp: bool, proto: u8, no: u32, a: seq<u8>) {
    && |a| == 12 + ah.icvLen
    && a[0] == (if esp then 50 else proto) && 4 * (a[1] as nat + 2) == |a| && a[2] == 0 && a[3] == 0
    && Word(a, 4) == ah.spi && Word(a, 8) == no
  }

  /** Section 2 of RFC 4303: SPI, sequence number, IV. */
  predicate EspFormat(esp: Esp, no: u32, e: seq<u8>) {
    |e| == 8 + |esp.iv| && Word(e, 0) == esp.spi && Word(e, 4) == no && e[8..] == esp.iv
  }

  /** What the ciphertext stands for: payload, the least padding to a whole number of blocks, the number of padding
      bytes, and the payload's protocol. */
  ghost predicate BodyFormat(c: Crypto, esp: Esp, data: seq<u8>, proto: u8, body: seq<u8>) {
    var plain := c.dec(esp.iv, body);
    && Padded(|data|, esp.block, |body|) && |plain| == |body|
    && plain[..|data|] == data && plain[|plain| - 2] == |plain| - |data| - 2 && plain[|plain| - 1] == proto
  }

  /** The packet as it is authenticated: TOS, flags and fragment offset, TTL, checksum and ICV are zero (section
      3.3.3 of RFC 4302). */
  function ForIcv(b: seq<u8>, icvLen: nat): seq<u8> {
    seq(|b|, i requires 0 <= i < |b| => if i in {1, 6, 7, 8, 10, 11} || 32 <= i < 32 + icvLen then 0 else b[i])
  }

  /** The protected form of p under sa. */
  ghost predicate WireFormat(c: Crypto, sa: Sa, p: Clear, nos: SeqNos, w: Wire) {
    && HeaderFormat(c, sa.ah.Some?, p.h, w)
    && (sa.ah.Some? ==> AhFormat(sa.ah.value, sa.esp.Some?, p.h[9], nos.ah, w.a) && w.a[12..] == c.mac(ForIcv(Bytes(w), sa.ah.value.icvLen)))
    && (sa.ah.None? ==> w.a == [])
    && (sa.esp.Some? ==> EspFormat(sa.esp.value, nos.esp, w.e) && BodyFormat(c, sa.esp.value, p.data, p.h[9], w.c))
    && (sa.esp.None? ==> w.e == [] && w.c == p.data)
  }

  // ---------- the protected packet has it ----------

  lemma AhIs(sa: Sa, ah: Ah, proto: u8, no: u32, icv: seq<u8>)
    requires sa.Valid() && sa.ah == Some(ah) && |icv| == ah.icvLen
    ensures AhFormat(ah, sa.esp.Some?, proto, no, AhPart(sa, Next(sa, proto), no, icv))
    ensures AhPart(sa, Next(sa, proto), no, icv)[12..] == icv
  {
    var x, a := [Next(sa, proto), 1 + ah.icvLen / 4, 0, 0], AhPart(sa, Next(sa, proto), no, icv);
    WordIn(x, ah.spi, Be32(no) + icv);
    WordIn(x + Be32(ah.spi), no, icv);
    assert a == x + Be32(ah.spi) + (Be32(no) + icv) && a == x + Be32(ah.spi) + Be32(no) + icv;
    hide Be32, Word;
  }

  lemma EspIs(sa: Sa, esp: Esp, no: u32)
    requires sa.esp == Some(esp)
    ensures EspFormat(esp, no, EspPart(sa, Be32(no)))
  {
    var e := EspPart(sa, Be32(no));
    WordIn([], esp.spi, Be32(no) + esp.iv);
    WordIn(Be32(esp.spi), no, esp.iv);
    assert e == [] + Be32(esp.spi) + (Be32(no) + esp.iv);
    hide Be32, Word;
  }

  lemma BodyIs(c: Crypto, sa: Sa, esp: Esp, p: Clear)
    requires p.Valid(sa) && Sound(c, sa) && sa.esp == Some(esp)
    ensures BodyFormat(c, esp, p.data, p.h[9], Enciphered(c, sa, Plain(sa, p.data, p.pad, Proto(p.h))))
  {
    TrailerPads(sa, |p.data|);
    var plain := p.data + p.pad + [|p.pad|, p.h[9]];
    assert c.dec(esp.iv, c.enc(esp.iv, plain)) == plain;
    hide Padded;
  }

  /** The header that is authenticated is the one that leaves, with its mutable fields cleared. */
  lemma HeaderIs(c: Crypto, sa: Sa, h: IpHeader, grow: nat)
    requires Sound(c, sa) && (sa.ah.Some? || sa.esp.Some?)
    ensures var out, w := OutHeader(sa, h, grow), Restored(c, OutHeader(sa, h, grow), MutableOf(h));
      && 0x100 * w[2] as nat + w[3] as nat == (TotLen(h) + grow) % 0x1_0000
      && w[9] == (if sa.ah.Some? then 51 else 50)
      && 0x100 * w[10] as nat + w[11] as nat == c.csum(w[10 := 0][11 := 0])
      && (forall i :: 0 <= i < 20 && i !in {2, 3, 9, 10, 11} ==> w[i] == h[i])
      && (sa.ah.Some? ==> forall i :: 0 <= i < 20 ==> out[i] == if i in {1, 6, 7, 8, 10, 11} then 0 else w[i])
  {
    var out := OutHeader(sa, h, grow);
    var w := Restored(c, out, MutableOf(h));
    var n := (TotLen(h) + grow) % 0x1_0000;
    assert out[2] == n / 0x100 && out[3] == n % 0x100;
    var x := SetChecksum(SetMutable(out, MutableOf(h)), 0);
    Be16RoundTrip(c.csum(x));
    Be16RoundTrip(From16(h[6], h[7]));
    FragIs(h);
    assert w[10 := 0][11 := 0] == x;
  }

  lemma FragIs(h: IpHeader)
    ensures Be16(From16(h[6], h[7]))[0] == h[6] && Be16(From16(h[6], h[7]))[1] == h[7]
  {
  }

  lemma IcvIs(h: seq<u8>, h': seq<u8>, a: seq<u8>, icv: seq<u8>, icvLen: nat, rest: seq<u8>)
    requires |h| == |h'| == 20 && |a| == 12 && |icv| == icvLen
    requires forall i :: 0 <= i < 20 ==> h'[i] == if i in {1, 6, 7, 8, 10, 11} then 0 else h[i]
    ensures ForIcv(h + (a + icv) + rest, icvLen) == h' + (a + Zeros(icvLen)) + rest
  {
  }

  /** The protected form has this format, for every packet, every configuration and every algorithm. */
  lemma ProtectedFormat(c: Crypto, sa: Sa, p: Clear, nos: SeqNos)
    requires p.Valid(sa) && Sound(c, sa)
    ensures WireFormat(c, sa, p, nos, Protected(c, sa, p, nos))
  {
    hide OutHeader, Restored, AhPart, EspPart, Plain, MutableOf, AhFormat, EspFormat, BodyFormat, ForIcv, HeaderFormat;
    var w := Protected(c, sa, p, nos);
    OuterIs(c, sa, p, nos, w);
    if sa.ah.Some? {
      AhIs(sa, sa.ah.value, Proto(p.h), nos.ah, IcvOf(c, sa, Unsigned(c, sa, p, nos)));
      Authenticates(c, sa, sa.ah.value, p, nos, w);
    } else {
      EmptyAh(sa, Next(sa, Proto(p.h)), nos.ah, ZeroIcv(sa));
    }
    if sa.esp.Some? {
      EspIs(sa, sa.esp.value, nos.esp);
      BodyIs(c, sa, sa.esp.value, p);
    } else {
      NoEsp(c, sa, p, Be32(nos.esp));
    }
  }

  lemma EmptyAh(sa: Sa, next: u8, no: u32, icv: seq<u8>)
    requires sa.Valid() && sa.ah.None?
    ensures AhPart(sa, next, no, icv) == []
  {
  }

  lemma NoEsp(c: Crypto, sa: Sa, p: Clear, no: seq<u8>)
    requires p.Valid(sa) && sa.esp.None? && |no| == 4
    ensures EspPart(sa, no) == [] && Enciphered(c, sa, Plain(sa, p.data, p.pad, Proto(p.h))) == p.data
  {
  }

  lemma OuterIs(c: Crypto, sa: Sa, p: Clear, nos: SeqNos, w: Wire)
    requires p.Valid(sa) && Sound(c, sa) && w == Protected(c, sa, p, nos)
    ensures HeaderFormat(c, sa.ah.Some?, p.h, w)
  {
    hide OutHeader, Restored, MutableOf, AhPart, EspPart, Plain, TotLen;
    var grow := sa.HdrLen() + sa.TrlLen(|p.data|);
    HeaderIs(c, sa, p.h, grow);
    assert |Enciphered(c, sa, Plain(sa, p.data, p.pad, Proto(p.h)))| == |p.data| + sa.TrlLen(|p.data|);
    assert |Bytes(w)| == TotLen(p.h) + grow;
  }

  lemma Authenticates(c: Crypto, sa: Sa, ah: Ah, p: Clear, nos: SeqNos, w: Wire)
    requires p.Valid(sa) && Sound(c, sa) && w == Protected(c, sa, p, nos) && sa.ah == Some(ah)
    ensures IcvOf(c, sa, Unsigned(c, sa, p, nos)) == c.mac(ForIcv(Bytes(w), ah.icvLen))
  {
    hide OutHeader, Restored, MutableOf, AhPart, EspPart, Plain, ForIcv, Bytes, SignedBytes, Enciphered;
    var w0, icv, next := Unsigned(c, sa, p, nos), IcvOf(c, sa, Unsigned(c, sa, p, nos)), Next(sa, Proto(p.h));
    HeaderIs(c, sa, p.h, sa.HdrLen() + sa.TrlLen(|p.data|));
    SignedIs(sa, ah, next, nos.ah, icv, w0, w);
  }

  /** The bytes signed are those of the signed packet with what is not covered cleared. */
  lemma SignedIs(sa: Sa, ah: Ah, next: u8, no: u32, icv: seq<u8>, w0: Wire, w: Wire)
    requires sa.Valid() && sa.ah == Some(ah) && |icv| == ah.icvLen
    requires w0.a == AhPart(sa, next, no, ZeroIcv(sa)) && w.a == AhPart(sa, next, no, icv) && w0.e == w.e && w0.c == w.c
    requires forall i :: 0 <= i < 20 ==> w0.h[i] == if i in {1, 6, 7, 8, 10, 11} then 0 else w.h[i]
    ensures SignedBytes(w0) == ForIcv(Bytes(w), ah.icvLen)
  {
    var x := [next, 1 + ah.icvLen / 4, 0, 0] + Be32(ah.spi) + Be32(no);
    assert w0.a == x + Zeros(ah.icvLen) && w.a == x + icv;
    hide Be32, ForIcv, AhPart;
    IcvIs(w.h, w0.h, x, icv, ah.icvLen, w.e + w.c);
    assert Bytes(w) == w.h + (x + icv) + (w.e + w.c);
    assert SignedBytes(w0) == w0.h + (x + Zeros(ah.icvLen)) + (w0.e + w0.c);
  }

  // ---------- what the receiver takes ----------

  /** A packet that arrived is for an entry exactly if the entry has every header the packet carries, with the same
      SPI; and the headers found are those the sender put there. */
  lemma TakenIff(r: Mem, o: nat, c: Crypto, sa: Sa, p: Clear, nos: SeqNos, entry: Sa)
    requires p.Valid(sa) && Sound(c, sa) && Fits(sa, p) && Arrives(r, o, c, sa, p, nos) && o + IP_LEN + 2 <= |r|
    requires sa.esp.Some? || p.h[9] != 50
    ensures var loc := Locate(r, o);
      && loc.ah == sa.ah.Some? && loc.esp == sa.esp.Some?
      && (loc.ah ==> o + IP_LEN + 8 <= |r|) && (loc.esp ==> o + IP_LEN + loc.espAt + 4 <= |r|)
      && (Matches(entry, r, o, loc) <==>
          && (sa.ah.Some? ==> entry.ah.Some? && entry.ah.value.spi == sa.ah.value.spi)
          && (sa.esp.Some? ==> entry.esp.Some? && entry.esp.value.spi == sa.esp.value.spi))
  {
    hide View, ZeroMutable, OutHeader, Restored, Locate, AhPart, EspPart, From32, Be32, MutableOf, Plain;
    var w := Unsigned(c, sa, p, nos);
    var next, icv := Next(sa, Proto(p.h)), IcvOf(c, sa, w);
    ArrivedHeader(r, o, c, sa, p, nos);
    Found(r, o, sa, View(r, o, IP_LEN), next, nos.ah, icv, nos.esp, w.c);
    if sa.ah.Some? {
      FoundAh(r, o, sa, next, nos.ah, icv, EspPart(sa, Be32(nos.esp)), w.c);
    }
    if sa.esp.Some? {
      EspFields(r, o, sa, AhPart(sa, next, nos.ah, icv), nos.esp, w.c);
    }
  }

  /** A packet is authentic exactly if its ICV is the MAC of the packet with the mutable fields and the ICV zero. */
  lemma AuthenticIff(m: Mem, o: nat, c: Crypto, sa: Sa, ah: Ah, len: nat)
    requires sa.ah == Some(ah) && 32 + ah.icvLen <= len && o + len <= |m| && o + IP_LEN + sa.AhLen() <= |m|
    ensures IcvGood(InMem(m, o, true), o, sa, c, len) <==> View(m, o + 32, ah.icvLen) == c.mac(ForIcv(View(m, o, len), ah.icvLen))
  {
    var m1 := InMem(m, o, true);
    var h := ZeroMutable(View(m, o, IP_LEN));
    ViewApart(m, o, h, o + 32, ah.icvLen);
    ClearedBytes(m, o, h, ah.icvLen, len);
  }

  lemma ClearedBytes(m: Mem, o: nat, h: seq<u8>, icvLen: nat, len: nat)
    requires 32 + icvLen <= len && o + len <= |m| && h == ZeroMutable(View(m, o, IP_LEN))
    ensures View(Splice(Splice(m, o, h), o + 32, Zeros(icvLen)), o, len) == ForIcv(View(m, o, len), icvLen)
  {
    var x, y := View(Splice(Splice(m, o, h), o + 32, Zeros(icvLen)), o, len), ForIcv(View(m, o, len), icvLen);
    ZeroedAt(View(m, o, IP_LEN));
    hide ZeroMutable;
    forall i | 0 <= i < len ensures x[i] == y[i] {
      assert i < 20 ==> h[i] == if i in {1, 6, 7, 8, 10, 11} then 0 else View(m, o, IP_LEN)[i];
    }
  }

  lemma ZeroedAt(h: IpHeader)
    ensures forall i :: 0 <= i < 20 ==> ZeroMutable(h)[i] == if i in {1, 6, 7, 8, 10, 11} then 0 else h[i]
  {
  }
}
