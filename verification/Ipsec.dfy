/** The transport-mode IPsec transformation on byte strings: the wire format it must produce,
    and the memory each processing stage leaves, as one in-place write after another. */
module Ipsec {
  import opened Bits
  import opened Wrappers
  import opened PacketBytes

  const IPPROTO_IPV4: u8 := 4
  const IPPROTO_ESP: u8 := 0x32
  const IPPROTO_AH: u8 := 0x33

  const AH_LEN := 12
  const ESP_LEN := 8
  const TRAILER_LEN := 2

  datatype Ah = Ah(spi: u32, icvLen: nat)
  datatype Esp = Esp(spi: u32, iv: seq<u8>, block: nat)

  /** A cache entry: the algorithms configured for a pair of addresses, in transport mode. */
  datatype Sa = Sa(ah: Option<Ah>, esp: Option<Esp>)
  {
    /** The length fields on the wire can express the configuration: the AH length counts 32-bit
        words (section 2.2 of RFC 4302), the ESP pad length is one byte (section 2.4 of RFC 4303). */
    predicate Valid() {
      && (ah.Some? || esp.Some?)
      && (ah.Some? ==> ah.value.icvLen % 4 == 0 && ah.value.icvLen / 4 + 1 < 0x100)
      && (esp.Some? ==> 1 <= esp.value.block <= 0x100)
    }

    function AhLen(): nat {
      if ah.Some? then AH_LEN + ah.value.icvLen else 0
    }

    function EspLen(): nat {
      if esp.Some? then ESP_LEN + |esp.value.iv| else 0
    }

    function HdrLen(): nat {
      AhLen() + EspLen()
    }

    /** Padding and trailer for n bytes of payload. */
    function TrlLen(n: nat): nat
      requires Valid()
    {
      if esp.Some? then EncodeLen(n + TRAILER_LEN, esp.value.block) - n else 0
    }
  }

  /** x rounded up to a multiple of b. */
  function EncodeLen(x: nat, b: nat): (r: nat)
    requires b >= 1
    ensures x <= r < x + b
  {
    if x == 0 then 0 else if x <= b then b else b + EncodeLen(x - b, b)
  }

  /** ESP_ENCODE_LEN computes it, and it is a multiple of the block length. */
  lemma {:induction false} EncodeLenMacro(x: nat, b: nat)
    requires b >= 1
    ensures (x + (b - 1)) / b * b == EncodeLen(x, b)
    ensures EncodeLen(x, b) % b == 0
  {
    var k := EncodeBlocks(x, b);
    var r := EncodeLen(x, b);
    ModUnique(r, b, k, 0);
    ModUnique(x + (b - 1), b, k, x + (b - 1) - r);
  }

  lemma {:induction false} EncodeBlocks(x: nat, b: nat) returns (k: nat)
    requires b >= 1
    ensures EncodeLen(x, b) == k * b
  {
    if x == 0 {
      k := 0;
    } else if x <= b {
      k := 1;
    } else {
      var j := EncodeBlocks(x - b, b);
      k := j + 1;
      assert (j + 1) * b == j * b + b;
    }
  }

  /** A length that holds n bytes and a trailer of two in whole blocks, and not a block more than it must. */
  predicate Padded(n: nat, block: nat, len: nat) {
    block >= 1 && len % block == 0 && n + 2 <= len < n + 2 + block
  }

  lemma TrailerPads(sa: Sa, n: nat)
    requires sa.Valid() && sa.esp.Some?
    ensures Padded(n, sa.esp.value.block, n + sa.TrlLen(n))
  {
    EncodeLenMacro(n + TRAILER_LEN, sa.esp.value.block);
  }

  /** A session of the crypto library with the configured algorithms and keys. */
  datatype Crypto = Crypto(
    enc: (seq<u8>, seq<u8>) -> seq<u8>, dec: (seq<u8>, seq<u8>) -> seq<u8>,
    mac: seq<u8> -> seq<u8>, csum: IpHeader -> nat)

  /** What is assumed of a pair of sessions with the same keys: deciphering inverts ciphering, both
      keep the length, and the MAC fills the configured ICV. */
  ghost predicate Sound(c: Crypto, sa: Sa) {
    && (forall iv, x {:trigger c.enc(iv, x)} :: |c.enc(iv, x)| == |x| && c.dec(iv, c.enc(iv, x)) == x)
    && (forall iv, x {:trigger c.dec(iv, x)} :: |c.dec(iv, x)| == |x|)
    && (sa.ah.Some? ==> forall x {:trigger c.mac(x)} :: |c.mac(x)| == sa.ah.value.icvLen)
    && (forall h {:trigger c.csum(h)} :: c.csum(h) < 0x1_0000)
  }

  // ---------- the wire format ----------

  /** Sequence numbers assigned to one packet. */
  datatype SeqNos = SeqNos(ah: u32, esp: u32)

  function AhPart(sa: Sa, next: u8, no: nat, icv: seq<u8>): (r: seq<u8>)
    requires sa.Valid() && (sa.ah.Some? ==> |icv| == sa.ah.value.icvLen)
    ensures |r| == sa.AhLen()
  {
    if sa.ah.Some?
    then [next, 1 + sa.ah.value.icvLen / 4, 0, 0] + Be32(sa.ah.value.spi) + Be32(no) + icv
    else []
  }

  function EspPart(sa: Sa, no: seq<u8>): (r: seq<u8>)
    requires |no| == 4
    ensures |r| == sa.EspLen()
  {
    if sa.esp.Some? then Be32(sa.esp.value.spi) + no + sa.esp.value.iv else []
  }

  /** The bytes to encipher: payload, padding, pad length and the payload's protocol. */
  function Plain(sa: Sa, data: seq<u8>, pad: seq<u8>, proto: u8): (r: seq<u8>)
    requires |pad| < 0x100
  {
    if sa.esp.Some? then data + pad + [|pad|, proto] else data
  }

  function Enciphered(c: Crypto, sa: Sa, plain: seq<u8>): seq<u8> {
    if sa.esp.Some? then c.enc(sa.esp.value.iv, plain) else plain
  }

  /** The protocol number AH announces: ESP if it is there, else the payload's. */
  function Next(sa: Sa, proto: u8): u8 {
    if sa.esp.Some? then IPPROTO_ESP else proto
  }

  /** The IPv4 header while the packet is authenticated. */
  function OutHeader(sa: Sa, h: IpHeader, grow: nat): IpHeader {
    var h1 := SetProto(h, Next(sa, Proto(h)));
    var h2 := if sa.ah.Some? then ZeroMutable(SetProto(h1, IPPROTO_AH)) else h1;
    SetTotLen(h2, TotLen(h) + grow)
  }

  /** The header that leaves: mutable fields back, checksum updated. */
  function Restored(c: Crypto, h: IpHeader, f: Mutable): IpHeader {
    var h1 := SetChecksum(SetMutable(h, f), 0);
    SetChecksum(h1, c.csum(h1))
  }

  // ---------- sending, stage by stage ----------

  /** What lies behind the IPv4 header at o: IPsec headers a and e, then c. */
  ghost predicate Parts(m: Mem, o: nat, a: seq<u8>, e: seq<u8>, c: seq<u8>) {
    && o + IP_LEN + |a| + |e| + |c| <= |m|
    && View(m, o + IP_LEN, |a|) == a
    && View(m, o + IP_LEN + |a|, |e|) == e
    && View(m, o + IP_LEN + |a| + |e|, |c|) == c
  }

  /** An IPv4 datagram at o, with room behind it for the encapsulation. */
  predicate Sendable(m: Mem, o: nat, sa: Sa) {
    && sa.Valid() && o + IP_LEN <= |m|
    && TotLen(View(m, o, IP_LEN)) >= IP_LEN
    && var n := TotLen(View(m, o, IP_LEN)) - IP_LEN;
    o + IP_LEN + sa.HdrLen() + n + sa.TrlLen(n) <= |m|
  }

  function DataLen(m: Mem, o: nat): nat
    requires o + IP_LEN <= |m| && TotLen(View(m, o, IP_LEN)) >= IP_LEN
  {
    TotLen(View(m, o, IP_LEN)) - IP_LEN
  }

  /** The payload moved up to d, ESP header at e without its sequence number, and trailer behind
      k bytes of padding. The padding bytes are not written. */
  function EspMem(m: Mem, e: nat, spi: seq<u8>, iv: seq<u8>, data: seq<u8>, k: nat, proto: u8): (r: Mem)
    requires |spi| == 4 && e + ESP_LEN + |iv| + |data| + k + TRAILER_LEN <= |m|
    ensures |r| == |m|
  {
    var d := e + ESP_LEN + |iv|;
    Splice(Splice(Splice(Splice(m, d, data), e, spi), e + ESP_LEN, iv), d + |data| + k, [k % 0x100, proto])
  }

  function AddEsp(m: Mem, o: nat, sa: Sa): (r: Mem)
    requires Sendable(m, o, sa)
    ensures |r| == |m|
  {
    var n, e := DataLen(m, o), o + IP_LEN + sa.AhLen();
    var data := View(m, o + IP_LEN, n);
    if sa.esp.None? then Splice(m, e, data)
    else EspMem(m, e, Be32(sa.esp.value.spi), sa.esp.value.iv, data, sa.TrlLen(n) - TRAILER_LEN, Proto(View(m, o, IP_LEN)))
  }

  function ZeroIcv(sa: Sa): (r: seq<u8>) {
    Zeros(if sa.ah.Some? then sa.ah.value.icvLen else 0)
  }

  /** Nothing is written when the SA has no AH. */
  function AddAh(m: Mem, o: nat, sa: Sa, next: u8): (r: Mem)
    requires sa.Valid() && o + IP_LEN + sa.AhLen() <= |m|
    ensures |r| == |m|
  {
    Splice(m, o + IP_LEN, AhPart(sa, next, 0, ZeroIcv(sa)))
  }

  /** do_ipsec_out_classify */
  function OutMem(m: Mem, o: nat, sa: Sa): (r: Mem)
    requires Sendable(m, o, sa)
    ensures |r| == |m|
  {
    var h, n := View(m, o, IP_LEN), DataLen(m, o);
    var m1 := AddAh(AddEsp(m, o, sa), o, sa, Next(sa, Proto(h)));
    Splice(m1, o, OutHeader(sa, h, sa.HdrLen() + sa.TrlLen(n)))
  }

  /** The padding the sender leaves as it found it. */
  function PadOf(m: Mem, o: nat, sa: Sa): (r: seq<u8>)
    requires Sendable(m, o, sa)
    ensures |r| < 0x100
    ensures |Plain(sa, View(m, o + IP_LEN, DataLen(m, o)), r, 0)| == DataLen(m, o) + sa.TrlLen(DataLen(m, o))
  {
    var n := DataLen(m, o);
    if sa.esp.None? then []
    else
      View(m, o + IP_LEN + sa.HdrLen() + n, sa.TrlLen(n) - TRAILER_LEN)
  }

  lemma Untouched(m: Mem, at: nat, bs: seq<u8>, o: nat, d: nat, n: nat, k: nat)
    requires at + |bs| <= |m| && d + n + k <= |m| && o + IP_LEN <= |m|
    requires (o + IP_LEN <= at && at + |bs| <= d) || (d + n + k <= at && o + IP_LEN <= at)
    ensures View(Splice(m, at, bs), o, IP_LEN) == View(m, o, IP_LEN)
    ensures View(Splice(m, at, bs), d, n) == View(m, d, n)
    ensures View(Splice(m, at, bs), d + n, k) == View(m, d + n, k)
  {
    ViewApart(m, at, bs, o, IP_LEN);
    ViewApart(m, at, bs, d, n);
    ViewApart(m, at, bs, d + n, k);
  }

  /** The bytes behind the IPv4 header after the ESP writes. */
  lemma EspBody(m: Mem, o: nat, e: nat, spi: seq<u8>, iv: seq<u8>, data: seq<u8>, k: nat, proto: u8)
    requires |spi| == 4 && o + IP_LEN <= e && e + ESP_LEN + |iv| + |data| + k + TRAILER_LEN <= |m|
    ensures var m', d := EspMem(m, e, spi, iv, data, k, proto), e + ESP_LEN + |iv|;
      && View(m', o, IP_LEN) == View(m, o, IP_LEN)
      && View(m', d, |data| + k + TRAILER_LEN) == data + View(m, d + |data|, k) + [k % 0x100, proto]
  {
    var n, d, trl := |data|, e + ESP_LEN + |iv|, [k % 0x100, proto];
    var m1 := Splice(m, d, data);
    Untouched(m, d, data, o, d + n, 0, k);
    ViewSplice(m, d, data);
    Untouched(m1, e, spi, o, d, n, k);
    var m2 := Splice(m1, e, spi);
    Untouched(m2, e + ESP_LEN, iv, o, d, n, k);
    var m3 := Splice(m2, e + ESP_LEN, iv);
    Untouched(m3, d + n + k, trl, o, d, n, k);
    ViewSplice(m3, d + n + k, trl);
    var m4 := Splice(m3, d + n + k, trl);
    ViewJoin(m4, d, n, k);
    ViewJoin(m4, d, n + k, TRAILER_LEN);
  }

  /** The ESP header after the ESP writes; the bytes of its sequence number are left over. */
  lemma EspHeader(m: Mem, e: nat, spi: seq<u8>, iv: seq<u8>, data: seq<u8>, k: nat, proto: u8) returns (no: seq<u8>)
    requires |spi| == 4 && e + ESP_LEN + |iv| + |data| + k + TRAILER_LEN <= |m|
    ensures |no| == 4 && View(EspMem(m, e, spi, iv, data, k, proto), e, ESP_LEN + |iv|) == spi + no + iv
  {
    var d, trl := e + ESP_LEN + |iv|, [k % 0x100, proto];
    var m1 := Splice(m, d, data);
    var m2 := Splice(m1, e, spi);
    ViewSplice(m1, e, spi);
    no := View(m2, e + 4, 4);
    ViewJoin(m2, e, 4, 4);
    var m3 := Splice(m2, e + ESP_LEN, iv);
    ViewApart(m2, e + ESP_LEN, iv, e, ESP_LEN);
    ViewSplice(m2, e + ESP_LEN, iv);
    ViewJoin(m3, e, ESP_LEN, |iv|);
    ViewApart(m3, d + |data| + k, trl, e, ESP_LEN + |iv|);
  }

  lemma AddEspParts(m: Mem, o: nat, sa: Sa, esp: Esp) returns (no: seq<u8>)
    requires Sendable(m, o, sa) && sa.esp == Some(esp)
    ensures |no| == 4 && View(AddEsp(m, o, sa), o, IP_LEN) == View(m, o, IP_LEN)
    ensures var n, e, d := DataLen(m, o), o + IP_LEN + sa.AhLen(), o + IP_LEN + sa.HdrLen();
      && View(AddEsp(m, o, sa), e, ESP_LEN + |esp.iv|) == EspPart(sa, no)
      && View(AddEsp(m, o, sa), d, n + sa.TrlLen(n)) == Plain(sa, View(m, o + IP_LEN, n), PadOf(m, o, sa), Proto(View(m, o, IP_LEN)))
  {
    hide Splice, View, EspMem;
    var n, e := DataLen(m, o), o + IP_LEN + sa.AhLen();
    var data := View(m, o + IP_LEN, n);
    var spi, iv, k := Be32(esp.spi), esp.iv, sa.TrlLen(n) - TRAILER_LEN;
    EspBody(m, o, e, spi, iv, data, k, Proto(View(m, o, IP_LEN)));
    no := EspHeader(m, e, spi, iv, data, k, Proto(View(m, o, IP_LEN)));
  }

  /** Writing the AH and the IPv4 header below an ESP encapsulation. */
  lemma HeadersOnTop(m: Mem, o: nat, h: seq<u8>, a: seq<u8>, e: seq<u8>, c: seq<u8>)
    requires |h| == IP_LEN && o + IP_LEN + |a| + |e| + |c| <= |m|
    requires View(m, o + IP_LEN + |a|, |e|) == e && View(m, o + IP_LEN + |a| + |e|, |c|) == c
    ensures var m' := Splice(Splice(m, o + IP_LEN, a), o, h);
      View(m', o, IP_LEN) == h && Parts(m', o, a, e, c)
  {
    var m1 := Splice(m, o + IP_LEN, a);
    ViewSplice(m, o + IP_LEN, a);
    ViewApart(m, o + IP_LEN, a, o + IP_LEN + |a|, |e|);
    ViewApart(m, o + IP_LEN, a, o + IP_LEN + |a| + |e|, |c|);
    ViewSplice(m1, o, h);
    ViewApart(m1, o, h, o + IP_LEN, |a|);
    ViewApart(m1, o, h, o + IP_LEN + |a|, |e|);
    ViewApart(m1, o, h, o + IP_LEN + |a| + |e|, |c|);
  }

  /** What do_ipsec_out_classify leaves in memory: the adjusted header, AH without sequence number
      and ICV, ESP without sequence number, and the bytes to encipher. */
  lemma OutLayout(m: Mem, o: nat, sa: Sa) returns (no: seq<u8>)
    requires Sendable(m, o, sa)
    ensures |no| == 4
    ensures var h, n := View(m, o, IP_LEN), DataLen(m, o);
      var c := Plain(sa, View(m, o + IP_LEN, n), PadOf(m, o, sa), Proto(h));
      && View(OutMem(m, o, sa), o, IP_LEN) == OutHeader(sa, h, sa.HdrLen() + sa.TrlLen(n))
      && Parts(OutMem(m, o, sa), o, AhPart(sa, Next(sa, Proto(h)), 0, ZeroIcv(sa)), EspPart(sa, no), c)
  {
    hide Splice, View, AddEsp;
    var h, n := View(m, o, IP_LEN), DataLen(m, o);
    var m1 := AddEsp(m, o, sa);
    var a, out := AhPart(sa, Next(sa, Proto(h)), 0, ZeroIcv(sa)), OutHeader(sa, h, sa.HdrLen() + sa.TrlLen(n));
    no := AddEspLayout(m, o, sa);
    HeadersOnTop(m1, o, out, a, EspPart(sa, no), Plain(sa, View(m, o + IP_LEN, n), PadOf(m, o, sa), Proto(h)));
  }

  /** The bytes to encipher end with the number of padding bytes and the payload's protocol. */
  ghost predicate TrailerAt(m: Mem, at: nat, len: nat, n: nat, proto: u8) {
    2 <= len && at + len <= |m| && m[at + len - 2] == len - n - 2 && m[at + len - 1] == proto
  }

  /** Behind the new headers lie whole blocks: the payload, the least padding, and the trailer. */
  lemma OutTrailer(m: Mem, o: nat, sa: Sa)
    requires Sendable(m, o, sa) && sa.esp.Some?
    ensures var n := DataLen(m, o);
      && Padded(n, sa.esp.value.block, n + sa.TrlLen(n))
      && TrailerAt(AddEsp(m, o, sa), o + IP_LEN + sa.HdrLen(), n + sa.TrlLen(n), n, m[o + 9])
      && TrailerAt(OutMem(m, o, sa), o + IP_LEN + sa.HdrLen(), n + sa.TrlLen(n), n, m[o + 9])
  {
    hide Padded, EncodeLen, OutMem, AddEsp, View, TotLen, OutHeader, AhPart, EspPart, TrailerAt;
    ProtoByte(m, o);
    var n := DataLen(m, o);
    TrailerPads(sa, n);
    var data, pad, d := View(m, o + IP_LEN, n), PadOf(m, o, sa), o + IP_LEN + sa.HdrLen();
    var no := AddEspLayout(m, o, sa);
    LastTwo(AddEsp(m, o, sa), d, sa, data, pad, Proto(View(m, o, IP_LEN)));
    no := OutLayout(m, o, sa);
    LastTwo(OutMem(m, o, sa), d, sa, data, pad, Proto(View(m, o, IP_LEN)));
  }

  lemma ProtoByte(m: Mem, o: nat)
    requires o + IP_LEN <= |m|
    ensures Proto(View(m, o, IP_LEN)) == m[o + 9]
  {
  }

  lemma LastTwo(m: Mem, d: nat, sa: Sa, data: seq<u8>, pad: seq<u8>, proto: u8)
    requires sa.esp.Some? && |pad| < 0x100 && var c := Plain(sa, data, pad, proto); d + |c| <= |m| && View(m, d, |c|) == c
    ensures TrailerAt(m, d, |data| + |pad| + 2, |data|, proto)
  {
    var c := Plain(sa, data, pad, proto);
    assert View(m, d, |c|)[|c| - 2] == m[d + (|c| - 2)] && View(m, d, |c|)[|c| - 1] == m[d + (|c| - 1)];
  }

  lemma AddEspLayout(m: Mem, o: nat, sa: Sa) returns (no: seq<u8>)
    requires Sendable(m, o, sa)
    ensures |no| == 4
    ensures var c := Plain(sa, View(m, o + IP_LEN, DataLen(m, o)), PadOf(m, o, sa), Proto(View(m, o, IP_LEN)));
      && View(AddEsp(m, o, sa), o + IP_LEN + sa.AhLen(), sa.EspLen()) == EspPart(sa, no)
      && View(AddEsp(m, o, sa), o + IP_LEN + sa.HdrLen(), |c|) == c
  {
    if sa.esp.Some? {
      no := AddEspParts(m, o, sa, sa.esp.value);
    } else {
      no := Zeros(4);
      ViewSplice(m, o + IP_LEN + sa.AhLen(), View(m, o + IP_LEN, DataLen(m, o)));
    }
  }

  // ---------- sequence numbers, crypto, and the header that leaves ----------

  /** do_ipsec_out_seq up to the crypto request. */
  function SeqMem(m: Mem, o: nat, sa: Sa, nos: SeqNos): (r: Mem)
    requires o + IP_LEN + sa.HdrLen() <= |m|
    ensures |r| == |m|
  {
    var m1 := if sa.ah.Some? then Splice(m, o + IP_LEN + 8, Be32(nos.ah)) else m;
    if sa.esp.Some? then Splice(m1, o + IP_LEN + sa.AhLen() + 4, Be32(nos.esp)) else m1
  }

  /** The cipher half of an encoding crypto operation on the last n bytes of the datagram. */
  function CipherMem(m: Mem, o: nat, sa: Sa, c: Crypto, n: nat): (r: Mem)
    requires Sound(c, sa) && o + IP_LEN + sa.HdrLen() + n <= |m|
    ensures |r| == |m|
  {
    var d := o + IP_LEN + sa.HdrLen();
    if sa.esp.Some? then Splice(m, d, c.enc(sa.esp.value.iv, View(m, d, n))) else m
  }

  /** The authentication half: over the enciphered datagram of the given length. */
  function MacMem(m: Mem, o: nat, sa: Sa, c: Crypto, len: nat): (r: Mem)
    requires Sound(c, sa) && o + len <= |m| && o + IP_LEN + sa.HdrLen() <= |m|
    ensures |r| == |m|
  {
    if sa.ah.Some? then Splice(m, o + IP_LEN + AH_LEN, c.mac(View(m, o, len))) else m
  }

  /** do_ipsec_out_finish */
  function FinishMem(m: Mem, o: nat, c: Crypto, f: Mutable): (r: Mem)
    requires o + IP_LEN <= |m|
    ensures |r| == |m|
  {
    Splice(m, o, Restored(c, View(m, o, IP_LEN), f))
  }

  /** do_ipsec_out_seq with its crypto operation on a datagram whose last n bytes are enciphered. */
  function EncodeMem(m: Mem, o: nat, sa: Sa, c: Crypto, nos: SeqNos, n: nat): (r: Mem)
    requires Sound(c, sa) && o + IP_LEN + sa.HdrLen() + n <= |m|
    ensures |r| == |m|
  {
    MacMem(CipherMem(SeqMem(m, o, sa, nos), o, sa, c, n), o, sa, c, IP_LEN + sa.HdrLen() + n)
  }

  /** do_ipsec_out_classify and do_ipsec_out_seq. */
  function EncodedMem(m: Mem, o: nat, sa: Sa, c: Crypto, nos: SeqNos): (r: Mem)
    requires Sendable(m, o, sa) && Sound(c, sa)
    ensures |r| == |m|
  {
    var n := DataLen(m, o);
    EncodeMem(OutMem(m, o, sa), o, sa, c, nos, n + sa.TrlLen(n))
  }

  /** The whole sending path. */
  function SendMem(m: Mem, o: nat, sa: Sa, c: Crypto, nos: SeqNos): (r: Mem)
    requires Sendable(m, o, sa) && Sound(c, sa)
    ensures |r| == |m|
  {
    FinishMem(EncodedMem(m, o, sa, c, nos), o, c, MutableOf(View(m, o, IP_LEN)))
  }

  /** Writing y' over the middle of x + y + z. */
  lemma SpliceMiddle(x: seq<u8>, y: seq<u8>, z: seq<u8>, y': seq<u8>)
    requires |y'| == |y|
    ensures Splice(x + y + z, |x|, y') == x + y' + z
  {
  }

  /** A write inside one of the parts changes that part only. */
  lemma WriteInAh(m: Mem, o: nat, a: seq<u8>, e: seq<u8>, c: seq<u8>, at: nat, bs: seq<u8>)
    requires Parts(m, o, a, e, c) && at + |bs| <= |a|
    ensures var m' := Splice(m, o + IP_LEN + at, bs);
      Parts(m', o, Splice(a, at, bs), e, c) && View(m', o, IP_LEN) == View(m, o, IP_LEN)
  {
    var p := o + IP_LEN + at;
    ViewApart(m, p, bs, o + IP_LEN + |a|, |e|);
    ViewApart(m, p, bs, o + IP_LEN + |a| + |e|, |c|);
    ViewApart(m, p, bs, o, IP_LEN);
    WriteInView(m, o + IP_LEN, a, at, bs);
  }

  lemma WriteInEsp(m: Mem, o: nat, a: seq<u8>, e: seq<u8>, c: seq<u8>, at: nat, bs: seq<u8>)
    requires Parts(m, o, a, e, c) && at + |bs| <= |e|
    ensures var m' := Splice(m, o + IP_LEN + |a| + at, bs);
      Parts(m', o, a, Splice(e, at, bs), c) && View(m', o, IP_LEN) == View(m, o, IP_LEN)
  {
    var p := o + IP_LEN + |a| + at;
    ViewApart(m, p, bs, o + IP_LEN, |a|);
    ViewApart(m, p, bs, o + IP_LEN + |a| + |e|, |c|);
    ViewApart(m, p, bs, o, IP_LEN);
    WriteInView(m, o + IP_LEN + |a|, e, at, bs);
  }

  lemma WriteBody(m: Mem, o: nat, a: seq<u8>, e: seq<u8>, c: seq<u8>, c': seq<u8>)
    requires Parts(m, o, a, e, c) && |c'| == |c|
    ensures var m' := Splice(m, o + IP_LEN + |a| + |e|, c');
      Parts(m', o, a, e, c') && View(m', o, IP_LEN) == View(m, o, IP_LEN)
  {
    var p := o + IP_LEN + |a| + |e|;
    ViewApart(m, p, c', o + IP_LEN, |a|);
    ViewApart(m, p, c', o + IP_LEN + |a|, |e|);
    ViewApart(m, p, c', o, IP_LEN);
    ViewSplice(m, p, c');
  }

  lemma WriteHeader(m: Mem, o: nat, a: seq<u8>, e: seq<u8>, c: seq<u8>, h: seq<u8>)
    requires Parts(m, o, a, e, c) && |h| == IP_LEN
    ensures var m' := Splice(m, o, h);
      Parts(m', o, a, e, c) && View(m', o, IP_LEN) == h
  {
    ViewApart(m, o, h, o + IP_LEN, |a|);
    ViewApart(m, o, h, o + IP_LEN + |a|, |e|);
    ViewApart(m, o, h, o + IP_LEN + |a| + |e|, |c|);
    ViewSplice(m, o, h);
  }

  lemma WriteInView(m: Mem, p: nat, a: seq<u8>, at: nat, bs: seq<u8>)
    requires p + |a| <= |m| && View(m, p, |a|) == a && at + |bs| <= |a|
    ensures View(Splice(m, p + at, bs), p, |a|) == Splice(a, at, bs)
  {
    var v, w := View(Splice(m, p + at, bs), p, |a|), Splice(a, at, bs);
    forall j | 0 <= j < |a| ensures v[j] == w[j] {
      assert a[j] == View(m, p, |a|)[j];
    }
  }

  lemma SeqAh(m: Mem, o: nat, sa: Sa, next: u8, icv: seq<u8>, e: seq<u8>, c: seq<u8>, no: u32)
    requires sa.Valid() && sa.ah.Some? && |icv| == sa.ah.value.icvLen && Parts(m, o, AhPart(sa, next, 0, icv), e, c)
    ensures var m' := Splice(m, o + IP_LEN + 8, Be32(no));
      Parts(m', o, AhPart(sa, next, no, icv), e, c) && View(m', o, IP_LEN) == View(m, o, IP_LEN)
  {
    WriteInAh(m, o, AhPart(sa, next, 0, icv), e, c, 8, Be32(no));
    SpliceMiddle([next, 1 + sa.ah.value.icvLen / 4, 0, 0] + Be32(sa.ah.value.spi), Be32(0), icv, Be32(no));
  }

  lemma SeqEsp(m: Mem, o: nat, sa: Sa, a: seq<u8>, left: seq<u8>, c: seq<u8>, no: u32)
    requires sa.esp.Some? && |left| == 4 && Parts(m, o, a, EspPart(sa, left), c)
    ensures var m' := Splice(m, o + IP_LEN + |a| + 4, Be32(no));
      Parts(m', o, a, EspPart(sa, Be32(no)), c) && View(m', o, IP_LEN) == View(m, o, IP_LEN)
  {
    WriteInEsp(m, o, a, EspPart(sa, left), c, 4, Be32(no));
    SpliceMiddle(Be32(sa.esp.value.spi), left, sa.esp.value.iv, Be32(no));
  }

  lemma SeqLayout(m: Mem, o: nat, sa: Sa, next: u8, icv: seq<u8>, left: seq<u8>, c: seq<u8>, nos: SeqNos)
    requires sa.Valid() && (sa.ah.Some? ==> |icv| == sa.ah.value.icvLen) && |left| == 4
    requires Parts(m, o, AhPart(sa, next, 0, icv), EspPart(sa, left), c)
    ensures var m' := SeqMem(m, o, sa, nos);
      && Parts(m', o, AhPart(sa, next, nos.ah, icv), EspPart(sa, Be32(nos.esp)), c)
      && View(m', o, IP_LEN) == View(m, o, IP_LEN)
  {
    var m1 := m;
    if sa.ah.Some? {
      SeqAh(m, o, sa, next, icv, EspPart(sa, left), c, nos.ah);
      m1 := Splice(m, o + IP_LEN + 8, Be32(nos.ah));
    }
    if sa.esp.Some? {
      SeqEsp(m1, o, sa, AhPart(sa, next, nos.ah, icv), left, c, nos.esp);
    }
  }

  lemma CipherLayout(m: Mem, o: nat, sa: Sa, c: Crypto, a: seq<u8>, e: seq<u8>, plain: seq<u8>)
    requires Sound(c, sa) && |a| == sa.AhLen() && |e| == sa.EspLen() && Parts(m, o, a, e, plain)
    ensures var m' := CipherMem(m, o, sa, c, |plain|);
      && Parts(m', o, a, e, Enciphered(c, sa, plain)) && |Enciphered(c, sa, plain)| == |plain|
      && View(m', o, IP_LEN) == View(m, o, IP_LEN)
  {
    if sa.esp.Some? {
      WriteBody(m, o, a, e, plain, c.enc(sa.esp.value.iv, plain));
    }
  }

  /** The datagram as one byte string. */
  lemma Whole(m: Mem, o: nat, a: seq<u8>, e: seq<u8>, c: seq<u8>)
    requires Parts(m, o, a, e, c)
    ensures View(m, o, IP_LEN + |a| + |e| + |c|) == View(m, o, IP_LEN) + a + e + c
  {
    ViewJoin(m, o, IP_LEN, |a|);
    ViewJoin(m, o, IP_LEN + |a|, |e|);
    ViewJoin(m, o, IP_LEN + |a| + |e|, |c|);
  }

  /** Writing the ICV field replaces the ICV. */
  lemma IcvWritten(m: Mem, o: nat, sa: Sa, next: u8, no: u32, icv: seq<u8>, e: seq<u8>, body: seq<u8>, icv': seq<u8>)
    requires sa.Valid() && sa.ah.Some? && |icv| == |icv'| == sa.ah.value.icvLen
    requires Parts(m, o, AhPart(sa, next, no, icv), e, body)
    ensures var m' := Splice(m, o + IP_LEN + AH_LEN, icv');
      Parts(m', o, AhPart(sa, next, no, icv'), e, body) && View(m', o, IP_LEN) == View(m, o, IP_LEN)
  {
    WriteInAh(m, o, AhPart(sa, next, no, icv), e, body, AH_LEN, icv');
    var front := [next, 1 + sa.ah.value.icvLen / 4, 0, 0] + Be32(sa.ah.value.spi) + Be32(no);
    SpliceMiddle(front, icv, [], icv');
    assert front + icv + [] == AhPart(sa, next, no, icv);
    assert front + icv' + [] == AhPart(sa, next, no, icv');
  }

  lemma MacLayout(m: Mem, o: nat, sa: Sa, c: Crypto, next: u8, no: u32, icv: seq<u8>, e: seq<u8>, body: seq<u8>)
    requires sa.Valid() && Sound(c, sa) && (sa.ah.Some? ==> |icv| == sa.ah.value.icvLen) && |e| == sa.EspLen()
    requires Parts(m, o, AhPart(sa, next, no, icv), e, body)
    ensures var m' := MacMem(m, o, sa, c, IP_LEN + sa.HdrLen() + |body|);
      var icv' := if sa.ah.Some? then c.mac(View(m, o, IP_LEN) + AhPart(sa, next, no, icv) + e + body) else icv;
      && Parts(m', o, AhPart(sa, next, no, icv'), e, body) && View(m', o, IP_LEN) == View(m, o, IP_LEN)
  {
    if sa.ah.Some? {
      Whole(m, o, AhPart(sa, next, no, icv), e, body);
      IcvWritten(m, o, sa, next, no, icv, e, body, c.mac(View(m, o, IP_LEN) + AhPart(sa, next, no, icv) + e + body));
    }
  }

  // ---------- the packet on the wire ----------

  /** A packet to protect: header, payload and the padding bytes it will carry. */
  datatype Clear = Clear(h: IpHeader, data: seq<u8>, pad: seq<u8>)
  {
    predicate Valid(sa: Sa) {
      && sa.Valid() && |pad| < 0x100
      && TotLen(h) == IP_LEN + |data|
      && |Plain(sa, data, pad, Proto(h))| == |data| + sa.TrlLen(|data|)
    }
  }

  /** The protected packet: section 3.1.1 of RFC 4303 inside section 3.1.1 of RFC 4302. */
  datatype Wire = Wire(h: IpHeader, a: seq<u8>, e: seq<u8>, c: seq<u8>)

  /** Header, AH without ICV, ESP header and ciphertext: what is authenticated. */
  function Frame(c: Crypto, sa: Sa, h: IpHeader, next: u8, nos: SeqNos, plain: seq<u8>): Wire
    requires sa.Valid()
  {
    Wire(h, AhPart(sa, next, nos.ah, ZeroIcv(sa)), EspPart(sa, Be32(nos.esp)), Enciphered(c, sa, plain))
  }

  function Unsigned(c: Crypto, sa: Sa, p: Clear, nos: SeqNos): Wire
    requires p.Valid(sa)
  {
    Frame(c, sa, OutHeader(sa, p.h, sa.HdrLen() + sa.TrlLen(|p.data|)), Next(sa, Proto(p.h)), nos,
          Plain(sa, p.data, p.pad, Proto(p.h)))
  }

  /** The bytes the ICV is computed over. */
  function SignedBytes(w: Wire): seq<u8> {
    w.h + w.a + w.e + w.c
  }

  function IcvOf(c: Crypto, sa: Sa, w: Wire): (r: seq<u8>)
    requires Sound(c, sa)
    ensures sa.ah.Some? ==> |r| == sa.ah.value.icvLen
  {
    if sa.ah.Some? then c.mac(SignedBytes(w)) else ZeroIcv(sa)
  }

  /** ICV filled in, mutable fields and checksum of the header restored. */
  function Signed(c: Crypto, sa: Sa, w: Wire, next: u8, no: u32, f: Mutable): Wire
    requires sa.Valid() && Sound(c, sa)
  {
    Wire(Restored(c, w.h, f), AhPart(sa, next, no, IcvOf(c, sa, w)), w.e, w.c)
  }

  function Protected(c: Crypto, sa: Sa, p: Clear, nos: SeqNos): Wire
    requires p.Valid(sa) && Sound(c, sa)
  {
    Signed(c, sa, Unsigned(c, sa, p, nos), Next(sa, Proto(p.h)), nos.ah, MutableOf(p.h))
  }

  /** Memory holds the packet on the wire at o. */
  ghost predicate Carries(m: Mem, o: nat, w: Wire) {
    o + IP_LEN <= |m| && View(m, o, IP_LEN) == w.h && Parts(m, o, w.a, w.e, w.c)
  }

  function ClearOf(m: Mem, o: nat, sa: Sa): (r: Clear)
    requires Sendable(m, o, sa)
    ensures r.Valid(sa)
  {
    Clear(View(m, o, IP_LEN), View(m, o + IP_LEN, DataLen(m, o)), PadOf(m, o, sa))
  }

  /** The crypto operation on a datagram with its sequence numbers in place. */
  lemma CryptoLayout(m: Mem, o: nat, sa: Sa, c: Crypto, next: u8, no: u32, e: seq<u8>, plain: seq<u8>)
    requires sa.Valid() && Sound(c, sa) && |e| == sa.EspLen() && Parts(m, o, AhPart(sa, next, no, ZeroIcv(sa)), e, plain)
    ensures var m' := MacMem(CipherMem(m, o, sa, c, |plain|), o, sa, c, IP_LEN + sa.HdrLen() + |plain|);
      var body := Enciphered(c, sa, plain);
      var icv := if sa.ah.Some? then c.mac(View(m, o, IP_LEN) + AhPart(sa, next, no, ZeroIcv(sa)) + e + body) else ZeroIcv(sa);
      Parts(m', o, AhPart(sa, next, no, icv), e, body) && View(m', o, IP_LEN) == View(m, o, IP_LEN)
  {
    CipherLayout(m, o, sa, c, AhPart(sa, next, no, ZeroIcv(sa)), e, plain);
    MacLayout(CipherMem(m, o, sa, c, |plain|), o, sa, c, next, no, ZeroIcv(sa), e, Enciphered(c, sa, plain));
  }

  /** A datagram after do_ipsec_out_seq: sequence numbers, ciphertext and ICV in place. */
  lemma EncodeLayout(m: Mem, o: nat, sa: Sa, c: Crypto, nos: SeqNos, next: u8, left: seq<u8>, plain: seq<u8>)
    requires sa.Valid() && Sound(c, sa) && |left| == 4 && o + IP_LEN <= |m|
    requires Parts(m, o, AhPart(sa, next, 0, ZeroIcv(sa)), EspPart(sa, left), plain)
    ensures var w := Frame(c, sa, View(m, o, IP_LEN), next, nos, plain);
      && Parts(EncodeMem(m, o, sa, c, nos, |plain|), o, AhPart(sa, next, nos.ah, IcvOf(c, sa, w)), w.e, w.c)
      && View(EncodeMem(m, o, sa, c, nos, |plain|), o, IP_LEN) == View(m, o, IP_LEN)
  {
    hide Splice, View, SeqMem, MacMem, CipherMem;
    SeqLayout(m, o, sa, next, ZeroIcv(sa), left, plain, nos);
    CryptoLayout(SeqMem(m, o, sa, nos), o, sa, c, next, nos.ah, EspPart(sa, Be32(nos.esp)), plain);
  }

  /** A datagram after do_ipsec_out_finish. */
  lemma FinishLayout(m: Mem, o: nat, sa: Sa, c: Crypto, nos: SeqNos, next: u8, left: seq<u8>, plain: seq<u8>, f: Mutable)
    requires sa.Valid() && Sound(c, sa) && |left| == 4 && o + IP_LEN <= |m|
    requires Parts(m, o, AhPart(sa, next, 0, ZeroIcv(sa)), EspPart(sa, left), plain)
    ensures var w := Frame(c, sa, View(m, o, IP_LEN), next, nos, plain);
      Carries(FinishMem(EncodeMem(m, o, sa, c, nos, |plain|), o, c, f), o, Signed(c, sa, w, next, nos.ah, f))
  {
    hide Splice, View, EncodeMem;
    var w := Signed(c, sa, Frame(c, sa, View(m, o, IP_LEN), next, nos, plain), next, nos.ah, f);
    EncodeLayout(m, o, sa, c, nos, next, left, plain);
    WriteHeader(EncodeMem(m, o, sa, c, nos, |plain|), o, w.a, w.e, w.c, w.h);
  }

  /** The sending path turns the datagram in memory into its protected form, in place. */
  lemma SendIsProtected(m: Mem, o: nat, sa: Sa, c: Crypto, nos: SeqNos)
    requires Sendable(m, o, sa) && Sound(c, sa)
    ensures Carries(SendMem(m, o, sa, c, nos), o, Protected(c, sa, ClearOf(m, o, sa), nos))
  {
    hide Splice, View, OutMem, EncodeMem, OutHeader, Restored, MutableOf;
    var p := ClearOf(m, o, sa);
    var left := OutLayout(m, o, sa);
    FinishLayout(OutMem(m, o, sa), o, sa, c, nos, Next(sa, Proto(p.h)), left, Plain(sa, p.data, p.pad, Proto(p.h)), MutableOf(p.h));
  }
}
