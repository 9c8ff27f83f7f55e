/** Byte strings in packet memory: views, in-place writes, and the IPv4 header fields the IPsec
    code touches. Multi-byte fields are big-endian. */
module PacketBytes {
  import opened Bits

  type Mem = seq<u8>

  function View(m: Mem, at: nat, n: nat): (r: seq<u8>)
    requires at + n <= |m|
    ensures |r| == n
  {
    seq(n, i requires 0 <= i < n => m[at + i])
  }

  /** Memory after writing bs at `at`. */
  function Splice(m: Mem, at: nat, bs: seq<u8>): (r: Mem)
    requires at + |bs| <= |m|
    ensures |r| == |m|
  {
    seq(|m|, i requires 0 <= i < |m| => if at <= i < at + |bs| then bs[i - at] else m[i])
  }

  lemma ViewSplice(m: Mem, at: nat, bs: seq<u8>)
    requires at + |bs| <= |m|
    ensures View(Splice(m, at, bs), at, |bs|) == bs
  {
  }

  /** A write leaves every view it does not overlap. */
  lemma ViewApart(m: Mem, at: nat, bs: seq<u8>, p: nat, n: nat)
    requires at + |bs| <= |m| && p + n <= |m| && (p + n <= at || at + |bs| <= p)
    ensures View(Splice(m, at, bs), p, n) == View(m, p, n)
  {
  }

  lemma ViewJoin(m: Mem, at: nat, j: nat, k: nat)
    requires at + j + k <= |m|
    ensures View(m, at, j + k) == View(m, at, j) + View(m, at + j, k)
  {
  }

  lemma EmptyView(m: Mem, at: nat)
    requires at <= |m|
    ensures View(m, at, 0) == []
  {
  }

  /** Equal views have equal sub-views. */
  lemma SubView(m: Mem, p: nat, m': Mem, p': nat, n: nat, i: nat, k: nat)
    requires p + n <= |m| && p' + n <= |m'| && View(m, p, n) == View(m', p', n) && i + k <= n
    ensures View(m, p + i, k) == View(m', p' + i, k)
  {
    var part, part' := View(m, p + i, k), View(m', p' + i, k);
    forall j | 0 <= j < k ensures part[j] == part'[j] {
      assert View(m, p, n)[i + j] == View(m', p', n)[i + j];
    }
  }

  /** memcpy from a byte string that is not in the array. */
  method Write(a: array<u8>, at: nat, bs: seq<u8>)
    requires at + |bs| <= a.Length
    modifies a
    ensures a[..] == Splice(old(a[..]), at, bs)
  {
    ghost var m := a[..];
    var i := 0;
    while i < |bs|
      invariant 0 <= i <= |bs|
      invariant forall j :: 0 <= j < a.Length ==> a[j] == if at <= j < at + i then bs[j - at] else m[j]
    {
      a[at + i] := bs[i];
      i := i + 1;
    }
    assert a[..] == Splice(m, at, bs);
  }

  function Zeros(n: nat): (r: seq<u8>)
    ensures |r| == n
  {
    seq(n, _ => 0)
  }

  function Be16(n: nat): (r: seq<u8>)
    ensures |r| == 2
  {
    [n / 0x100 % 0x100, n % 0x100]
  }

  function From16(hi: u8, lo: u8): nat {
    hi as nat * 0x100 + lo as nat
  }

  lemma Be16RoundTrip(n: nat)
    requires n < 0x1_0000
    ensures From16(Be16(n)[0], Be16(n)[1]) == n
  {
  }

  function Be32(n: nat): (r: seq<u8>)
    ensures |r| == 4
  {
    Be16(n / 0x1_0000) + Be16(n % 0x1_0000)
  }

  function From32(b: seq<u8>): nat
    requires |b| == 4
  {
    From16(b[0], b[1]) * 0x1_0000 + From16(b[2], b[3])
  }

  lemma Be32RoundTrip(n: nat)
    requires n < TWO32
    ensures From32(Be32(n)) == n
  {
    var hi, lo := n / 0x1_0000, n % 0x1_0000;
    Be16RoundTrip(hi);
    Be16RoundTrip(lo);
    hide Be16;
    assert Be32(n)[0] == Be16(hi)[0] && Be32(n)[1] == Be16(hi)[1];
    assert Be32(n)[2] == Be16(lo)[0] && Be32(n)[3] == Be16(lo)[1];
  }

  // ---------- the IPv4 header ----------

  const IP_LEN := 20

  type IpHeader = h: seq<u8> | |h| == 20 witness Zeros(20)

  function TotLen(h: IpHeader): nat { From16(h[2], h[3]) }
  function Proto(h: IpHeader): u8 { h[9] }

  /** ip->tot_len is 16 bits wide. */
  function SetTotLen(h: IpHeader, n: int): IpHeader {
    var n' := n % 0x1_0000;
    h[2 := n' / 0x100][3 := n' % 0x100]
  }

  function SetProto(h: IpHeader, p: u8): IpHeader { h[9 := p] }

  /** The fields routers may change: TOS, flags and fragment offset, TTL (section 3.3.3.1.1 of RFC 4302). */
  datatype Mutable = Mutable(tos: u8, frag: nat, ttl: u8)

  function MutableOf(h: IpHeader): Mutable {
    Mutable(h[1], From16(h[6], h[7]), h[8])
  }

  function SetMutable(h: IpHeader, f: Mutable): IpHeader {
    h[1 := f.tos][6 := Be16(f.frag)[0]][7 := Be16(f.frag)[1]][8 := f.ttl]
  }

  function SetChecksum(h: IpHeader, c: nat): IpHeader {
    h[10 := Be16(c)[0]][11 := Be16(c)[1]]
  }

  function ZeroMutable(h: IpHeader): IpHeader {
    SetChecksum(SetMutable(h, Mutable(0, 0, 0)), 0)
  }
}
