/** The checksum methods of `SimTcpSegment`, `SimUdpDatagram` and `SimIp4Packet`, each proved to compute the
    Internet checksum of the bytes it covers. */
module PacketChecksums {
  import opened AxisChunks
  import opened InternetChecksum
  import opened SimPackets

  type U32 = x: nat | x < 0x1_0000_0000

  const PROT_TCP: Byte := 6
  const PROT_UDP: Byte := 17

  function Be16(v: U16): (s: seq<Byte>)
    ensures |s| == 2
  {
    [v / 256, v % 256]
  }

  function Be32(v: U32): (s: seq<Byte>)
    ensures |s| == 4
  {
    Be16(v / 0x1_0000) + Be16(v % 0x1_0000)
  }

  /** The pseudo-header of section 3.1 of RFC 793 and of RFC 768. */
  function PseudoHeader(sa: U32, da: U32, prot: Byte, len: U16): (s: seq<Byte>)
    ensures |s| == 12
  {
    Be32(sa) + Be32(da) + [0, prot] + Be16(len)
  }

  /** The layout, on an example with TCP's protocol number. */
  lemma PseudoHeaderLayout()
    ensures PseudoHeader(0x0A0B0C0D, 0x01020304, 6, 20) == [10, 11, 12, 13, 1, 2, 3, 4, 0, 6, 0, 20]
  {
    assert Be32(0x0A0B0C0D) == [10, 11, 12, 13] && Be32(0x01020304) == [1, 2, 3, 4] && Be16(20) == [0, 20];
  }

  /** `s` with the 16-bit field at offset `i` replaced by `v`. */
  function Patch(s: seq<Byte>, i: nat, v: U16): (r: seq<Byte>)
    requires i + 2 <= |s|
    ensures |r| == |s|
  {
    s[..i] + Be16(v) + s[i + 2..]
  }

  lemma PatchTwice(s: seq<Byte>, i: nat, v: U16, w: U16)
    requires i + 2 <= |s|
    ensures Patch(Patch(s, i, v), i, w) == Patch(s, i, w)
  {
  }

  /** The 64-bit `tempInput` of the checksum loops: lanes whose keep bit is clear read as zero. */
  function Masked(c: AxisChunk): (t: seq<Byte>)
    ensures |t| == 8
  {
    [ if c.keep[0] then c.data[0] else 0, if c.keep[1] then c.data[1] else 0,
      if c.keep[2] then c.data[2] else 0, if c.keep[3] then c.data[3] else 0,
      if c.keep[4] then c.data[4] else 0, if c.keep[5] then c.data[5] else 0,
      if c.keep[6] then c.data[6] else 0, if c.keep[7] then c.data[7] else 0 ]
  }

  lemma {:induction false} Zeros(z: seq<Byte>)
    requires forall i | 0 <= i < |z| :: z[i] == 0
    ensures LeSum(z) == 0 && BeSum(z) == 0
  {
    if |z| >= 2 {
      Zeros(z[2..]);
    }
  }

  lemma {:induction false} TrailingZeros(a: seq<Byte>, z: seq<Byte>)
    requires forall i | 0 <= i < |z| :: z[i] == 0
    ensures LeSum(a + z) == LeSum(a) && BeSum(a + z) == BeSum(a)
  {
    if |a| >= 2 {
      TrailingZeros(a[2..], z);
      assert (a + z)[2..] == a[2..] + z;
    } else if a == [] {
      assert a + z == z;
      Zeros(z);
    } else if z != [] {
      assert (a + z)[2..] == z[1..];
      Zeros(z[1..]);
    } else {
      assert a + z == a;
    }
  }

  lemma Sum4(t: seq<Byte>)
    requires |t| == 4
    ensures LeSum(t) == Word(t[1], t[0]) + Word(t[3], t[2])
    ensures BeSum(t) == Word(t[0], t[1]) + Word(t[2], t[3])
  {
    var u := t[2..];
    assert u[2..] == [] && u[0] == t[2] && u[1] == t[3];
    assert LeSum(u) == Word(u[1], u[0]) + LeSum(u[2..]);
    assert BeSum(u) == Word(u[0], u[1]) + BeSum(u[2..]);
  }

  lemma Sum8(t: seq<Byte>)
    requires |t| == 8
    ensures LeSum(t) == Word(t[1], t[0]) + Word(t[3], t[2]) + Word(t[5], t[4]) + Word(t[7], t[6])
    ensures BeSum(t) == Word(t[0], t[1]) + Word(t[2], t[3]) + Word(t[4], t[5]) + Word(t[6], t[7])
  {
    assert t == t[..4] + t[4..];
    SumsConcat(t[..4], t[4..]);
    Sum4(t[..4]);
    Sum4(t[4..]);
  }

  /** The four half-words added for a chunk are those of its valid bytes, zero-padded. */
  lemma MaskedSums(c: AxisChunk, n: nat)
    requires 1 <= n <= 8 && c.keep == Mask(n)
    ensures LeSum(Masked(c)) == LeSum(c.data[..n]) && BeSum(Masked(c)) == BeSum(c.data[..n])
  {
    var z := seq<Byte>(8 - n, _ => 0);
    assert Masked(c) == c.data[..n] + z;
    TrailingZeros(c.data[..n], z);
  }

  /** Adding chunk `k` to the sum over a prefix of even length `p` and the chunks before it. */
  lemma ChunkAdds(p: seq<Byte>, q: seq<AxisChunk>, k: nat)
    requires WellFormed(q) && k < |q| && |p| % 2 == 0
    ensures LeSum(p + Bytes(q[..k + 1])) == LeSum(p + Bytes(q[..k])) + LeSum(Masked(q[k]))
    ensures BeSum(p + Bytes(q[..k + 1])) == BeSum(p + Bytes(q[..k])) + BeSum(Masked(q[k]))
    ensures |Bytes(q[..k + 1])| <= |Bytes(q)|
  {
    hide Bytes, LeSum, BeSum, Masked, WellFormed;
    var n := ChunkOf(q, k);
    MaskedSums(q[k], n);
    SumsConcat(p + Bytes(q[..k]), q[k].data[..n]);
    assert p + Bytes(q[..k + 1]) == p + Bytes(q[..k]) + q[k].data[..n];
    BytesParts(q, k + 1);
  }

  /** `SimTcpSegment::calculateTcpChecksum` and `SimUdpDatagram::calculateUdpChecksum`: accumulate byte-swapped
      half-words in 32 bits, fold at the end, complement and swap. The 16-bit length fields of IPv4
      bound the segment. */
  method CalculateL4Checksum(seg: SimPacket, sa: U32, da: U32, prot: Byte, len: U16) returns (r: U16)
    requires WellFormed(seg.q) && |Bytes(seg.q)| <= 0xFFFF
    ensures r == Checksum(PseudoHeader(sa, da, prot, len) + Bytes(seg.q))
  {
    hide Bytes, LeSum, BeSum, Masked, WellFormed, OnesSum, PseudoHeader, Swap16, Word;
    var csum: U32 := Swap16(sa / 0x1_0000) + Swap16(sa % 0x1_0000);
    csum := csum + Swap16(da / 0x1_0000) + Swap16(da % 0x1_0000);
    csum := csum + Swap16(prot) + Swap16(len);
    ghost var p := PseudoHeader(sa, da, prot, len);
    PseudoHeaderSum(sa, da, prot, len);
    BytesEmpty();
    assert p + [] == p && seg.q[..0] == [];
    for i := 0 to |seg.q|
      invariant csum == LeSum(p + Bytes(seg.q[..i]))
    {
      ChunkAdds(p, seg.q, i);
      SumsBound(p + Bytes(seg.q[..i + 1]));
      var t := Masked(seg.q[i]);
      Sum8(t);
      var sum := csum + Word(t[7], t[6]) + Word(t[5], t[4]) + Word(t[3], t[2]) + Word(t[1], t[0]);
      NoOverflow(sum);
      csum := sum % 0x1_0000_0000;
    }
    ghost var s := p + Bytes(seg.q);
    assert seg.q[..|seg.q|] == seg.q;
    var folded := FoldDown(csum);
    LittleEndianChecksum(s, folded);
    r := Swap16(0xFFFF - folded);
  }

  lemma NoOverflow(x: nat)
    requires x < 0x1_0000_0000
    ensures x % 0x1_0000_0000 == x
  {
  }

  /** `while (csum >> 16) csum = (csum & 0xFFFF) + (csum >> 16);` */
  method FoldDown(x: U32) returns (r: U16)
    ensures r == Fold(x)
  {
    var csum := x;
    while csum > 0xFFFF
      invariant Fold(csum) == Fold(x)
      decreases csum
    {
      FoldOnceKeeps(csum);
      csum := FoldOnce(csum);
    }
    FoldFixed(csum);
    r := csum;
  }

  lemma Be16Sum(v: U16)
    ensures LeSum(Be16(v)) == Swap16(v)
  {
    assert Be16(v)[2..] == [];
  }

  lemma Be32Sum(v: U32)
    ensures LeSum(Be32(v)) == Swap16(v / 0x1_0000) + Swap16(v % 0x1_0000)
  {
    SumsConcat(Be16(v / 0x1_0000), Be16(v % 0x1_0000));
    Be16Sum(v / 0x1_0000);
    Be16Sum(v % 0x1_0000);
  }

  lemma PseudoHeaderSum(sa: U32, da: U32, prot: Byte, len: U16)
    ensures Swap16(sa / 0x1_0000) + Swap16(sa % 0x1_0000) + Swap16(da / 0x1_0000) + Swap16(da % 0x1_0000)
            + Swap16(prot) + Swap16(len) == LeSum(PseudoHeader(sa, da, prot, len))
  {
    hide LeSum, Be32, Swap16;
    Be32Sum(sa);
    Be32Sum(da);
    Be16Sum(prot);
    Be16Sum(len);
    assert Be16(prot) == [0, prot];
    SumsConcat(Be32(sa), Be32(da));
    SumsConcat(Be32(sa) + Be32(da), [0, prot]);
    SumsConcat(Be32(sa) + Be32(da) + [0, prot], Be16(len));
  }

  /** `SimIp4Packet::checksumCalculation`: accumulate big-endian half-words and fold twice per chunk. */
  method ChecksumCalculation(q: seq<AxisChunk>) returns (r: U16)
    requires WellFormed(q)
    ensures r == Checksum(Bytes(q))
  {
    hide Bytes, LeSum, BeSum, Masked, WellFormed, OnesSum, FoldOnce, Fold, Word;
    var csum: U32 := 0;
    BytesEmpty();
    assert q[..0] == [];
    EmptySum();
    FoldFixed(0);
    for i := 0 to |q|
      invariant csum <= 0xFFFF && csum == Fold(BeSum(Bytes(q[..i])))
    {
      ChunkAdds([], q, i);
      assert [] + Bytes(q[..i]) == Bytes(q[..i]) && [] + Bytes(q[..i + 1]) == Bytes(q[..i + 1]);
      var t := Masked(q[i]);
      Sum8(t);
      ghost var x := BeSum(Bytes(q[..i]));
      FoldSum(x, BeSum(t));
      csum := csum + Word(t[0], t[1]) + Word(t[2], t[3]) + Word(t[4], t[5]) + Word(t[6], t[7]);
      assert csum == Fold(x) + BeSum(t);
      FoldTwice(csum);
      csum := FoldOnce(csum);
      csum := FoldOnce(csum);
    }
    assert q[..|q|] == q;
    OnesSumIsFold(Bytes(q));
    r := 0xFFFF - csum;
  }

  /** Five 16-bit values need at most two folds. */
  lemma FoldTwice(x: nat)
    requires x <= 5 * 0xFFFF
    ensures FoldOnce(FoldOnce(x)) <= 0xFFFF && FoldOnce(FoldOnce(x)) == Fold(x)
    ensures FoldOnce(x) < 0x1_0000_0000
  {
    FoldOnceKeeps(x);
    FoldOnceKeeps(FoldOnce(x));
    FoldFixed(FoldOnce(FoldOnce(x)));
  }

  lemma EmptySum()
    ensures BeSum([]) == 0
  {
  }

  lemma FoldSum(x: nat, y: nat)
    ensures Fold(Fold(x) + y) == Fold(x + y)
  {
    if x > 0 {
      var k := FoldQuotient(x);
      FoldShift(Fold(x) + y, k);
    }
  }

  /** A 16-bit field setter: the field occupies lanes `lane` and `lane + 1` of chunk `k`. */
  method SetField16(p: SimPacket, k: nat, lane: nat, v: U16)
    requires p.Valid() && WellFormed(p.q) && k < |p.q| && lane < 7 && 8 * k + lane + 2 <= |Bytes(p.q)|
    modifies p
    ensures p.Valid() && WellFormed(p.q) && p.len == old(p.len) && |p.q| == old(|p.q|)
    ensures Bytes(p.q) == Patch(old(Bytes(p.q)), 8 * k + lane, v)
  {
    hide Bytes, LenSum, WellFormed;
    ghost var b := Bytes(p.q);
    var hi: Byte, lo: Byte := v / 256, v % 256;
    ByteReplaced(p.q, k, lane, hi);
    p.q := p.q[k := p.q[k].(data := p.q[k].data[lane := hi])];
    ByteReplaced(p.q, k, lane + 1, lo);
    p.q := p.q[k := p.q[k].(data := p.q[k].data[lane + 1 := lo])];
    ghost var b1: seq<Byte> := b[8 * k + lane := hi];
    assert b1[8 * k + lane + 1 := lo] == Patch(b, 8 * k + lane, v);
  }

  /** A stored checksum makes the covered data sum to all ones. */
  lemma PatchVerifies(p: seq<Byte>, b: seq<Byte>, i: nat, c: U16)
    requires |p| % 2 == 0 && i % 2 == 0 && i + 2 <= |b|
    requires c == Checksum(p + Patch(b, i, 0))
    ensures OnesSum(p + Patch(b, i, c)) == 0xFFFF
  {
    hide OnesSum, Patch;
    PatchSplit(p, b, i, 0);
    PatchSplit(p, b, i, c);
    StoredChecksumVerifies(p + b[..i], b[i + 2..], c);
  }

  lemma PatchSplit(p: seq<Byte>, b: seq<Byte>, i: nat, v: U16)
    requires i + 2 <= |b|
    ensures p + Patch(b, i, v) == (p + b[..i]) + [v / 256, v % 256] + b[i + 2..]
  {
  }

  /** `SimTcpSegment::reCalculateTcpChecksum`. */
  method ReCalculateTcpChecksum(seg: SimPacket, sa: U32, da: U32, len: U16) returns (r: U16)
    requires seg.Valid() && WellFormed(seg.q) && 18 <= |Bytes(seg.q)| <= 0xFFFF
    modifies seg
    ensures seg.Valid() && WellFormed(seg.q) && seg.len == old(seg.len)
    ensures var b := old(Bytes(seg.q));
            && r == Checksum(PseudoHeader(sa, da, PROT_TCP, len) + Patch(b, 16, 0))
            && Bytes(seg.q) == Patch(b, 16, r)
    ensures OnesSum(PseudoHeader(sa, da, PROT_TCP, len) + Bytes(seg.q)) == 0xFFFF
  {
    hide Bytes, OnesSum, PseudoHeader;
    ghost var b := Bytes(seg.q);
    WellFormedLength(seg.q);
    SetField16(seg, 2, 0, 0);
    r := CalculateL4Checksum(seg, sa, da, PROT_TCP, len);
    SetField16(seg, 2, 0, r);
    PatchTwice(b, 16, 0, r);
    PatchVerifies(PseudoHeader(sa, da, PROT_TCP, len), b, 16, r);
  }

  /** `SimUdpDatagram::reCalculateUdpChecksum`; the length comes from the UDP length field. */
  method ReCalculateUdpChecksum(dgm: SimPacket, sa: U32, da: U32) returns (r: U16)
    requires dgm.Valid() && WellFormed(dgm.q) && 8 <= |Bytes(dgm.q)| <= 0xFFFF
    modifies dgm
    ensures dgm.Valid() && WellFormed(dgm.q) && dgm.len == old(dgm.len)
    ensures var b := old(Bytes(dgm.q));
            && r == Checksum(PseudoHeader(sa, da, PROT_UDP, Word(b[4], b[5])) + Patch(b, 6, 0))
            && Bytes(dgm.q) == Patch(b, 6, r)
            && OnesSum(PseudoHeader(sa, da, PROT_UDP, Word(b[4], b[5])) + Bytes(dgm.q)) == 0xFFFF
            && (r == 0 <==> BeSum(PseudoHeader(sa, da, PROT_UDP, Word(b[4], b[5])) + Patch(b, 6, 0)) % 0xFFFF == 0)
  {
    hide Bytes, OnesSum, BeSum, PseudoHeader;
    ghost var b := Bytes(dgm.q);
    WellFormedLength(dgm.q);
    SetField16(dgm, 0, 6, 0);
    var n := ChunkBytes(dgm.q, 0);
    assert Bytes(dgm.q)[0..8][4] == dgm.q[0].data[4] && Bytes(dgm.q)[0..8][5] == dgm.q[0].data[5];
    r := CalculateL4Checksum(dgm, sa, da, PROT_UDP, Word(dgm.q[0].data[4], dgm.q[0].data[5]));
    SetField16(dgm, 0, 6, r);
    PatchTwice(b, 6, 0, r);
    PatchVerifies(PseudoHeader(sa, da, PROT_UDP, Word(b[4], b[5])), b, 6, r);
    ZeroUdpChecksum(sa, da, Word(b[4], b[5]), Patch(b, 6, 0));
  }

  /** RFC 768 sends a computed checksum of zero as all ones; the code stores the zero, exactly when the covered 16-bit
      words add up to a multiple of 65535. */
  lemma ZeroUdpChecksum(sa: U32, da: U32, len: U16, d: seq<Byte>)
    ensures var s := PseudoHeader(sa, da, PROT_UDP, len) + d;
            Checksum(s) == 0 <==> BeSum(s) % 0xFFFF == 0
  {
    hide OnesSum, BeSum, PseudoHeader;
    var p := PseudoHeader(sa, da, PROT_UDP, len);
    SumsConcat(p, d);
    PseudoPositive(sa, da, len);
    ZeroChecksum(p + d);
  }

  lemma PseudoPositive(sa: U32, da: U32, len: U16)
    ensures BeSum(PseudoHeader(sa, da, PROT_UDP, len)) > 0
  {
    hide BeSum, Be32, Be16;
    var a, c: seq<Byte> := Be32(sa) + Be32(da), [0, PROT_UDP] + Be16(len);
    assert PseudoHeader(sa, da, PROT_UDP, len) == a + c;
    SumsConcat(a, c);
    Sum4(c);
  }

  /** This empty datagram gets a checksum of zero. */
  lemma UdpChecksumMayBeZero()
    ensures Checksum(PseudoHeader(0xFFDE, 0, PROT_UDP, 8) + [0, 0, 0, 0, 0, 8, 0, 0]) == 0
  {
    hide OnesSum, BeSum, LeSum;
    var h := PseudoHeader(0xFFDE, 0, PROT_UDP, 8);
    var s, z, p, d: seq<Byte> := [0, 0, 0xFF, 0xDE], [0, 0, 0, 0], [0, 17, 0, 8], [0, 0, 0, 0, 0, 8, 0, 0];
    assert h == s + z + p;
    SumsConcat(s + z + p, d);
    SumsConcat(s + z, p);
    SumsConcat(s, z);
    Sum4(s);
    Sum4(z);
    Sum4(p);
    Sum8(d);
    OnesSumIsFold(h + d);
    FoldFixed(0xFFFF);
  }

  /** The little-endian half-word in lanes `lane` and `lane + 1`. */
  function HalfWord(c: AxisChunk, lane: nat): (w: U16)
    requires lane < 7
  {
    Word(c.data[lane + 1], c.data[lane])
  }

  /** Summing the 32-bit header word `j` of a packet whose checksum field is read as zero. */
  lemma HeaderWord(q: seq<AxisChunk>, j: nat)
    requires WellFormed(q) && 12 <= |Bytes(q)| && 4 * j + 4 <= |Bytes(q)|
    ensures j / 2 < |q|
    ensures var b := Patch(Bytes(q), 10, 0);
            var lane := 4 * (j % 2);
            LeSum(b[..4 * j + 4]) == LeSum(b[..4 * j]) + HalfWord(q[j / 2], lane)
                                     + if j == 2 then 0 else HalfWord(q[j / 2], lane + 2)
  {
    hide *;
    var k, lane := j / 2, 4 * (j % 2);
    HeaderLanes(q, k, lane);
    HeaderWordBytes(Bytes(q), j);
    HeaderHalves(q[k], lane, Bytes(q)[4 * j..4 * j + 4]);
  }

  /** The four bytes of a header word in their lanes. */
  lemma HeaderLanes(q: seq<AxisChunk>, k: nat, lane: nat)
    requires WellFormed(q) && lane <= 4 && 8 * k + lane + 4 <= |Bytes(q)|
    ensures k < |q| && Bytes(q)[8 * k + lane..8 * k + lane + 4] == q[k].data[lane..lane + 4]
  {
    hide Bytes, WellFormed;
    ByteAt(q, k, lane);
    ByteAt(q, k, lane + 1);
    ByteAt(q, k, lane + 2);
    ByteAt(q, k, lane + 3);
  }

  /** The sum over the bytes of a header word, with the checksum field read as zero. */
  lemma HeaderWordBytes(s: seq<Byte>, j: nat)
    requires 12 <= |s| && 4 * j + 4 <= |s|
    ensures var b, t := Patch(s, 10, 0), s[4 * j..4 * j + 4];
            LeSum(b[..4 * j + 4]) == LeSum(b[..4 * j]) + Word(t[1], t[0]) + if j == 2 then 0 else Word(t[3], t[2])
  {
    hide LeSum, Word, Patch;
    var b := Patch(s, 10, 0);
    var u := b[4 * j..4 * j + 4];
    PatchedBytes(s, j);
    Sum4(u);
    assert b[..4 * j + 4] == b[..4 * j] + u;
    SumsConcat(b[..4 * j], u);
    ZeroWord();
  }

  lemma HeaderHalves(c: AxisChunk, lane: nat, t: seq<Byte>)
    requires lane <= 4 && t == c.data[lane..lane + 4]
    ensures Word(t[1], t[0]) == HalfWord(c, lane) && Word(t[3], t[2]) == HalfWord(c, lane + 2)
  {
    hide Word;
  }

  lemma ZeroWord()
    ensures Word(0, 0) == 0
  {
  }

  lemma PatchedBytes(s: seq<Byte>, j: nat)
    requires 12 <= |s| && 4 * j + 4 <= |s|
    ensures var t := Patch(s, 10, 0)[4 * j..4 * j + 4];
            && t[0] == s[4 * j] && t[1] == s[4 * j + 1]
            && t[2] == (if j == 2 then 0 else s[4 * j + 2])
            && t[3] == (if j == 2 then 0 else s[4 * j + 3])
  {
  }

  lemma ByteAt(q: seq<AxisChunk>, k: nat, lane: nat)
    requires WellFormed(q) && lane < 8 && 8 * k + lane < |Bytes(q)|
    ensures k < |q| && Bytes(q)[8 * k + lane] == q[k].data[lane]
  {
    hide Bytes;
    var n: nat :| 1 <= n <= 8 && Packed(q, n);
    PackedLength(q, n);
    PackedByteAt(q, n, 8 * k + lane);
    LaneOf(k, lane);
  }

  lemma LaneOf(k: nat, lane: nat)
    requires lane < 8
    ensures (8 * k + lane) / 8 == k && (8 * k + lane) % 8 == lane
  {
  }

  /** The number of 32-bit words in the IPv4 header. */
  function Ihl(q: seq<AxisChunk>): nat
    requires q != []
  {
    q[0].data[0] % 16
  }

  /** `SimIp4Packet::calculateIpHeaderChecksum`: the header word with the checksum contributes its first
      half only; options are summed one half-chunk at a time. */
  method CalculateIpHeaderChecksum(ip: SimPacket) returns (r: U16)
    requires WellFormed(ip.q) && 5 <= Ihl(ip.q) && 4 * Ihl(ip.q) <= |Bytes(ip.q)|
    ensures r == Checksum(Patch(Bytes(ip.q)[..4 * Ihl(ip.q)], 10, 0))
  {
    hide Bytes, LeSum, OnesSum, Patch, Word, Swap16;
    var ihl := Ihl(ip.q);
    ghost var b := Patch(Bytes(ip.q), 10, 0);
    ghost var words := ihl;
    HeaderWord(ip.q, 0);
    HeaderWord(ip.q, 1);
    HeaderWord(ip.q, 2);
    HeaderWord(ip.q, 3);
    HeaderWord(ip.q, 4);
    EmptyLeSum();
    assert b[..0] == [];
    var csum := HalfWord(ip.q[0], 0) + HalfWord(ip.q[0], 2) + HalfWord(ip.q[0], 4) + HalfWord(ip.q[0], 6);
    ihl := ihl - 2;
    csum := csum + HalfWord(ip.q[1], 0) + HalfWord(ip.q[1], 4) + HalfWord(ip.q[1], 6);
    ihl := ihl - 2;
    csum := csum + HalfWord(ip.q[2], 0) + HalfWord(ip.q[2], 2);
    ihl := ihl - 1;
    var qw, incRaw := 2, true;
    while ihl > 0
      invariant 0 <= ihl <= words - 5
      invariant qw == (words - ihl) / 2 && incRaw == ((words - ihl) % 2 == 1)
      invariant csum == LeSum(b[..4 * (words - ihl)])
      decreases ihl
    {
      HeaderWord(ip.q, words - ihl);
      if incRaw {
        csum := csum + HalfWord(ip.q[qw], 4) + HalfWord(ip.q[qw], 6);
        incRaw := false;
        qw := qw + 1;
      } else {
        csum := csum + HalfWord(ip.q[qw], 0) + HalfWord(ip.q[qw], 2);
        incRaw := true;
      }
      ihl := ihl - 1;
    }
    SumsBound(b[..4 * words]);
    PatchPrefix(Bytes(ip.q), 10, 4 * words);
    var folded := FoldDown(csum);
    LittleEndianChecksum(b[..4 * words], folded);
    r := Swap16(0xFFFF - folded);
  }

  lemma EmptyLeSum()
    ensures LeSum([]) == 0
  {
  }

  lemma PatchPrefix(s: seq<Byte>, i: nat, n: nat)
    requires i + 2 <= n <= |s|
    ensures Patch(s, i, 0)[..n] == Patch(s[..n], i, 0)
  {
  }

  /** `SimIp4Packet::reCalculateIpHeaderChecksum`, for headers of 5 to 15 words. */
  method ReCalculateIpHeaderChecksum(ip: SimPacket) returns (r: U16)
    requires ip.Valid() && WellFormed(ip.q) && 5 <= Ihl(ip.q) && 4 * Ihl(ip.q) <= |Bytes(ip.q)|
    modifies ip
    ensures ip.Valid() && WellFormed(ip.q) && ip.len == old(ip.len) && Ihl(ip.q) == old(Ihl(ip.q))
    ensures Bytes(ip.q) == Patch(old(Bytes(ip.q)), 10, r)
    ensures OnesSum(Bytes(ip.q)[..4 * Ihl(ip.q)]) == 0xFFFF
  {
    hide Bytes, OnesSum;
    ghost var b, n := Bytes(ip.q), 4 * Ihl(ip.q);
    WellFormedLength(ip.q);
    FirstByte(ip.q);
    r := CalculateIpHeaderChecksum(ip);
    SetField16(ip, 1, 2, r);
    FirstByte(ip.q);
    assert [] + Patch(b[..n], 10, 0) == Patch(b[..n], 10, 0);
    PatchVerifies([], b[..n], 10, r);
    assert [] + Patch(b[..n], 10, r) == Patch(b, 10, r)[..n];
  }

  /** The inverse of `Be32`. */
  function FromBe32(s: seq<Byte>): (v: U32)
    requires |s| == 4
    ensures Be32(v) == s
  {
    var hi, lo := Word(s[0], s[1]), Word(s[2], s[3]);
    assert Be16(hi) == s[..2] && Be16(lo) == s[2..];
    assert (hi * 0x1_0000 + lo) / 0x1_0000 == hi && (hi * 0x1_0000 + lo) % 0x1_0000 == lo;
    assert s == s[..2] + s[2..];
    hi * 0x1_0000 + lo
  }

  /** The addresses that the packet's header states. */
  function SrcAddr(b: seq<Byte>): U32
    requires |b| >= 20
  {
    FromBe32(b[12..16])
  }

  function DstAddr(b: seq<Byte>): U32
    requires |b| >= 20
  {
    FromBe32(b[16..20])
  }

  /** `getTcpSegmentLength`: total length minus header length, in 16 bits. */
  function L4Len(b: seq<Byte>): U16
    requires |b| >= 20
  {
    (Word(b[2], b[3]) as int - 20) % 0x1_0000
  }

  /** `tcpAssemblePseudoHeaderAndData`: two chunks with the pseudo-header and the ports, then the packet's
      chunks 3 and up. Clears the checksum field of the packet. */
  method TcpAssemblePseudoPacket(ip: SimPacket) returns (buf: seq<AxisChunk>)
    requires ip.Valid() && WellFormed(ip.q) && Ihl(ip.q) == 5 && 38 <= |Bytes(ip.q)|
    modifies ip
    ensures ip.Valid() && WellFormed(ip.q) && ip.len == old(ip.len) && |ip.q| == old(|ip.q|)
    ensures var b := old(Bytes(ip.q));
            var p := Patch(b, 36, 0);
            && Bytes(ip.q) == p
            && WellFormed(buf)
            && Bytes(buf) == PseudoHeader(SrcAddr(b), DstAddr(b), b[9], L4Len(b)) + p[20..]
  {
    hide Bytes, LenSum, WellFormed, Patch, Word, FromBe32, Be16, Be32, PseudoHeader;
    ghost var b := Bytes(ip.q);
    WellFormedLength(ip.q);
    HeaderFields(ip.q);
    var sa, da := FromBe32(ip.q[1].data[4..]), FromBe32(ip.q[2].data[..4]);
    var len: U16 := (Word(ip.q[0].data[2], ip.q[0].data[3]) as int - 4 * Ihl(ip.q)) % 0x1_0000;
    var sp, dp := Word(ip.q[2].data[4], ip.q[2].data[5]), Word(ip.q[2].data[6], ip.q[2].data[7]);
    var full := [true, true, true, true, true, true, true, true];
    var first: AxisChunk := Chunk(Be32(sa) + Be32(da), full, false);
    var second: AxisChunk := Chunk([0, ip.q[1].data[1]] + Be16(len) + Be16(sp) + Be16(dp), full, false);
    buf := [first, second];
    SetField16(ip, 4, 4, 0);
    for i := 2 to |ip.q| - 1
      invariant buf == [first, second] + ip.q[3..i + 1]
    {
      buf := buf + [ip.q[i + 1]];
    }
    assert buf == [first, second] + ip.q[3..];
    assert full == Mask(8);
    PseudoPacketBytes(ip.q, first, second);
    PatchBelow(b, 36);
    PseudoHeaderAndPorts(sa, da, b[9], len, b[20..24]);
    ghost var h, t := PseudoHeader(sa, da, b[9], len), Bytes(ip.q)[24..];
    assert (h + b[20..24]) + t == h + (b[20..24] + t);
  }

  lemma PseudoHeaderAndPorts(sa: U32, da: U32, prot: Byte, len: U16, ports: seq<Byte>)
    requires |ports| == 4
    ensures Be32(sa) + Be32(da)
            + ([0, prot] + Be16(len) + Be16(Word(ports[0], ports[1])) + Be16(Word(ports[2], ports[3])))
            == PseudoHeader(sa, da, prot, len) + ports
  {
    hide Be32;
    WordBytes(ports[0], ports[1]);
    WordBytes(ports[2], ports[3]);
  }

  lemma WordBytes(hi: Byte, lo: Byte)
    ensures Be16(Word(hi, lo)) == [hi, lo]
  {
    DivMod256(Word(hi, lo), hi, lo);
  }

  /** Where the header fields of a packet with a 20-byte IPv4 header sit. */
  lemma HeaderFields(q: seq<AxisChunk>)
    requires WellFormed(q) && 38 <= |Bytes(q)|
    ensures |q| >= 5
    ensures var b := Bytes(q);
            && b[2] == q[0].data[2] && b[3] == q[0].data[3] && b[9] == q[1].data[1]
            && b[12..16] == q[1].data[4..] && b[16..20] == q[2].data[..4] && b[20..24] == q[2].data[4..]
  {
    hide Bytes;
    WellFormedLength(q);
    var n0 := ChunkBytes(q, 0);
    var n1 := ChunkBytes(q, 1);
    var n2 := ChunkBytes(q, 2);
    var b := Bytes(q);
    assert b[2] == b[0..8][2] && b[3] == b[0..8][3] && b[9] == b[8..16][1];
    assert b[12..16] == b[8..16][4..] && b[16..20] == b[16..24][..4] && b[20..24] == b[16..24][4..];
  }

  lemma PatchBelow(b: seq<Byte>, i: nat)
    requires 24 <= i && i + 2 <= |b|
    ensures Patch(b, i, 0)[20..] == b[20..24] + Patch(b, i, 0)[24..]
  {
  }

  /** Replacing the first three chunks by two full ones. */
  lemma PseudoPacketBytes(q: seq<AxisChunk>, first: AxisChunk, second: AxisChunk)
    requires WellFormed(q) && |q| > 3
    requires first.keep == Mask(8) && second.keep == Mask(8) && !first.last && !second.last
    ensures var buf := [first, second] + q[3..];
            WellFormed(buf) && |Bytes(q)| > 24 && Bytes(buf) == first.data + second.data + Bytes(q)[24..]
  {
    var n: nat :| 1 <= n <= 8 && Packed(q, n);
    var buf := [first, second] + q[3..];
    assert Packed(buf, n);
    BytesConcat([first, second], q[3..]);
    BytesConcat([first], [second]);
    assert [first] + [second] == [first, second];
    SingleChunk(first);
    SingleChunk(second);
    FullLength(q[..3]);
    PackedLength(q, n);
    BytesParts(q, 3);
  }

  lemma SingleChunk(c: AxisChunk)
    requires c.keep == Mask(8)
    ensures Bytes([c]) == c.data
  {
    KeptMask(c, 8);
    hide *;
    BytesSnoc([], c);
    BytesEmpty();
    assert [] + [c] == [c] && c.data[..8] == c.data;
  }

  /** `SimIp4Packet::tcpRecalculateChecksum`. */
  method TcpRecalculateChecksum(ip: SimPacket) returns (r: U16)
    requires ip.Valid() && WellFormed(ip.q) && Ihl(ip.q) == 5 && 38 <= |Bytes(ip.q)|
    modifies ip
    ensures ip.Valid() && WellFormed(ip.q) && ip.len == old(ip.len)
    ensures var b := old(Bytes(ip.q));
            var h := PseudoHeader(SrcAddr(b), DstAddr(b), b[9], L4Len(b));
            && r == Checksum(h + Patch(b, 36, 0)[20..])
            && Bytes(ip.q) == Patch(b, 36, r)
            && OnesSum(h + Bytes(ip.q)[20..]) == 0xFFFF
  {
    hide Bytes, LenSum, WellFormed, PseudoHeader, OnesSum;
    ghost var b := Bytes(ip.q);
    WellFormedLength(ip.q);
    var buf := TcpAssemblePseudoPacket(ip);
    r := ChecksumCalculation(buf);
    SetField16(ip, 4, 4, r);
    PatchTwice(b, 36, 0, r);
    ghost var h := PseudoHeader(SrcAddr(b), DstAddr(b), b[9], L4Len(b));
    PatchDrop(b, 20, 36, 0);
    PatchDrop(b, 20, 36, r);
    PatchVerifies(h, b[20..], 16, r);
  }

  lemma PatchDrop(b: seq<Byte>, n: nat, i: nat, v: U16)
    requires n <= i && i + 2 <= |b|
    ensures Patch(b, i, v)[n..] == Patch(b[n..], i - n, v)
  {
  }

  /** The two TCP checksum implementations agree: big-endian with two folds per chunk over a pseudo-packet,
      and little-endian with deferred folding over the extracted segment. */
  method TcpChecksumsAgree(ip: SimPacket) returns (fromPacket: U16, fromSegment: U16)
    requires ip.Valid() && WellFormed(ip.q) && Ihl(ip.q) == 5 && 38 <= |Bytes(ip.q)| <= 0xFFFF
    requires Bytes(ip.q)[9] == 6
    modifies ip
    ensures fromPacket == fromSegment
    ensures Bytes(ip.q) == Patch(old(Bytes(ip.q)), 36, fromPacket)
  {
    hide Bytes, LenSum, WellFormed, PseudoHeader, OnesSum;
    ghost var b := Bytes(ip.q);
    WellFormedLength(ip.q);
    FirstByte(ip.q);
    HeaderFields(ip.q);
    var sa, da := FromBe32(ip.q[1].data[4..]), FromBe32(ip.q[2].data[..4]);
    var len: U16 := (Word(ip.q[0].data[2], ip.q[0].data[3]) as int - 20) % 0x1_0000;
    var seg := ip.GetL4Payload();
    fromSegment := ReCalculateTcpChecksum(seg, sa, da, len);
    fromPacket := TcpRecalculateChecksum(ip);
    PatchDrop(b, 20, 36, 0);
  }
}
