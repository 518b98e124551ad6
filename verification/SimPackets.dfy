/** The simulation packet classes. `SimEthFrame`, `SimIp4Packet`, `SimUdpDatagram` and `SimTcpSegment`
    all keep a deque of chunks and a byte count, and share `pushChunk` and `pullChunk`; they are one
    class here. The encapsulating loops re-align a byte stream across chunk boundaries: 6/2 lanes for
    an Ethernet header of 14 bytes, 4/4 lanes for an IPv4 header of 20 bytes. */
module SimPackets {
  import opened AxisChunks

  /** The queue after `pushChunk`: the previous final chunk loses its `last` flag. */
  function Pushed(q: seq<AxisChunk>, c: AxisChunk): (r: seq<AxisChunk>)
    ensures |r| == |q| + 1
  {
    (if q == [] then [] else q[|q| - 1 := q[|q| - 1].(last := false)]) + [c]
  }

  lemma PushedBytes(q: seq<AxisChunk>, c: AxisChunk)
    ensures Bytes(Pushed(q, c)) == Bytes(q) + Kept(c)
    ensures LenSum(Pushed(q, c)) == LenSum(q) + KeepToLen(c.keep)
  {
    var p := if q == [] then [] else q[|q| - 1 := q[|q| - 1].(last := false)];
    BytesIgnoreLast(p, q);
    BytesSnoc(p, c);
    LenSumSnoc(p, c);
  }

  /** All chunks but the final one are full and unmarked; the final one holds `n` bytes. */
  ghost predicate Open(q: seq<AxisChunk>, n: nat) {
    && Packed(q, n)
    && forall i | 0 <= i < |q| - 1 :: !q[i].last
  }

  /** Pushing onto a queue of full chunks. */
  lemma PushedOpen(q: seq<AxisChunk>, c: AxisChunk, n: nat)
    requires q == [] || Open(q, 8)
    requires n <= 8 && c.keep == Mask(n)
    ensures Open(Pushed(q, c), n)
    ensures c.last && n > 0 ==> WellFormed(Pushed(q, c))
  {
    var p := Pushed(q, c);
    assert p[|p| - 1] == c;
  }

  /** Replacing the final chunk by one with the same bytes plus `extra`. */
  lemma LastReplaced(q: seq<AxisChunk>, c: AxisChunk, extra: seq<Byte>)
    requires q != []
    requires Kept(c) == Kept(q[|q| - 1]) + extra
    ensures Bytes(q[|q| - 1 := c]) == Bytes(q) + extra
    ensures LenSum(q[|q| - 1 := c]) == LenSum(q) - KeepToLen(q[|q| - 1].keep) + KeepToLen(c.keep)
  {
    var n := |q| - 1;
    assert q[n := c] == q[..n] + [c];
    assert q == q[..n] + [q[n]];
    BytesSnoc(q[..n], c);
    LenSumSnoc(q[..n], c);
  }

  /** A well-formed queue: chunk `k` is full unless it is the final one. */
  lemma ChunkOf(q: seq<AxisChunk>, k: nat) returns (n: nat)
    requires WellFormed(q) && k < |q|
    ensures 1 <= n <= 8 && q[k].keep == Mask(n) && KeepToLen(q[k].keep) == n && Kept(q[k]) == q[k].data[..n]
    ensures q[k].last <==> k == |q| - 1
    ensures !q[k].last ==> n == 8
    ensures Bytes(q[..k + 1]) == Bytes(q[..k]) + q[k].data[..n]
    ensures |Bytes(q[..k])| == 8 * k
  {
    n :| 1 <= n <= 8 && Packed(q, n);
    n := if k == |q| - 1 then n else 8;
    KeptMask(q[k], n);
    KeepToLenMask(n);
    BytesTake(q, k);
    FullLength(q[..k]);
  }

  /** Moving lanes `s .. s+m` of a chunk of `n` bytes, more than `s`, to a cleared chunk. */
  lemma EmptyMove(src: AxisChunk, n: nat, s: nat, m: nat)
    requires s < n <= 8 && s + m <= 8 && src.keep == Mask(n)
    ensures var c := MoveLanes(EMPTY_CHUNK, 0, src, s, m).(last := src.last);
            c.keep == Mask(Filled(n, s, m)) && Kept(c) == src.data[s..s + Filled(n, s, m)]
  {
    assert EMPTY_CHUNK.keep == Mask(0);
    MoveLanesPacks(EMPTY_CHUNK, 0, src, s, m, n);
    KeptMask(EMPTY_CHUNK, 0);
    var c := MoveLanes(EMPTY_CHUNK, 0, src, s, m);
    KeptIgnoresLast(c, c.(last := src.last), |c.keep|);
  }

  /** One step of an encapsulation that splits each source chunk after lane `h`: the first `h` lanes of
      chunk `k` complete the final chunk `c` of the destination. */
  lemma HeadStep(q: seq<AxisChunk>, src: seq<AxisChunk>, k: nat, n: nat, h: nat, prefix: seq<Byte>, c: AxisChunk)
    requires 0 < h < 8 && 1 <= n <= 8
    requires k < |src|
    requires Open(q, 8 - h) && Bytes(q) == prefix + Bytes(src[..k])
    requires Bytes(src[..k + 1]) == Bytes(src[..k]) + src[k].data[..n]
    requires src[k].last <==> k == |src| - 1
    requires !src[k].last ==> n == 8
    requires c.keep == Mask(8 - h + Filled(n, 0, h)) && Kept(c) == Kept(q[|q| - 1]) + src[k].data[..Filled(n, 0, h)]
    requires c.last <==> src[k].last && n <= h
    ensures var r := q[|q| - 1 := c];
            && LenSum(r) == LenSum(q) + Filled(n, 0, h)
            && (c.last ==> WellFormed(r) && Bytes(r) == prefix + Bytes(src))
            && (!c.last ==> Open(r, 8) && n > h && Bytes(r) == prefix + Bytes(src[..k]) + src[k].data[..h])
  {
    hide Bytes, LenSum, KeptUpTo;
    var e := |q| - 1;
    var r := q[e := c];
    LastReplaced(q, c, src[k].data[..Filled(n, 0, h)]);
    KeepToLenMask(8 - h);
    KeepToLenMask(8 - h + Filled(n, 0, h));
    if c.last {
      assert src[..k + 1] == src;
      assert Packed(r, 8 - h + n);
    }
  }

  /** The following step: the remaining lanes of source chunk `k` open a new chunk `c`. */
  lemma TailStep(q: seq<AxisChunk>, src: seq<AxisChunk>, k: nat, n: nat, h: nat, prefix: seq<Byte>, c: AxisChunk)
    requires 0 < h < n <= 8
    requires k < |src| && Bytes(src[..k + 1]) == Bytes(src[..k]) + src[k].data[..n]
    requires src[k].last <==> k == |src| - 1
    requires Open(q, 8) && Bytes(q) == prefix + Bytes(src[..k]) + src[k].data[..h]
    requires c.keep == Mask(n - h) && Kept(c) == src[k].data[h..n]
    ensures Open(Pushed(q, c), n - h)
    ensures Bytes(Pushed(q, c)) == prefix + Bytes(src[..k + 1])
    ensures c.last ==> WellFormed(Pushed(q, c))
    ensures src[k].last ==> src[..k + 1] == src
  {
    hide Bytes, LenSum, KeptUpTo;
    PushedBytes(q, c);
    PushedOpen(q, c, n - h);
    assert src[k].data[..h] + src[k].data[h..n] == src[k].data[..n];
  }

  /** `src` is chunk `i`, of `n` bytes, of a well-formed queue that carries `b`. */
  ghost predicate IsChunk(b: seq<Byte>, src: AxisChunk, i: nat, n: nat) {
    && 1 <= n <= 8 && src.keep == Mask(n) && 8 * i + n <= |b|
    && b[8 * i..8 * i + n] == src.data[..n]
    && if src.last then 8 * i + n == |b| else n == 8 && 8 * i + 8 < |b|
  }

  /** No lane from `h` on is valid, as in the source's `not (keep & 0xC0)` and `not (keep & 0xF0)`. */
  predicate KeepsNoneFrom(c: AxisChunk, h: nat)
    requires h <= 8
  {
    forall j | h <= j < 8 :: !c.keep[j]
  }

  lemma ChunkBytes(q: seq<AxisChunk>, k: nat) returns (n: nat)
    requires WellFormed(q) && k < |q|
    ensures IsChunk(Bytes(q), q[k], k, n)
    ensures q[k].last <==> k == |q| - 1
    ensures forall h | 0 < h < 8 :: KeepsNoneFrom(q[k], h) <==> n <= h
  {
    var m: nat :| 1 <= m <= 8 && Packed(q, m);
    n := if k == |q| - 1 then m else 8;
    PackedLength(q, m);
    forall j | 0 <= j < n
      ensures Bytes(q)[8 * k + j] == q[k].data[j]
    {
      PackedByteAt(q, m, 8 * k + j);
    }
    forall h | 0 < h < 8
      ensures KeepsNoneFrom(q[k], h) <==> n <= h
    {
      assert q[k].keep[h] <==> h < n;
    }
  }

  /** What the two halves of a re-aligning read take from input chunk `i`, in terms of the stream `b`. */
  lemma HeadLanes(b: seq<Byte>, src: AxisChunk, i: nat, n: nat, h: nat)
    requires 0 < h < 8 && 1 <= n <= 8 && src.keep == Mask(n)
    requires 8 * i + n <= |b| && b[8 * i..8 * i + n] == src.data[..n]
    ensures var c := MoveLanes(EMPTY_CHUNK, 0, src, 8 - h, h);
            var k := Filled(n, 8 - h, h);
            && c.keep == Mask(k)
            && (k == 0 ==> n <= 8 - h)
            && (k > 0 ==> n == 8 - h + k && c.data[..k] == b[8 * i + 8 - h..8 * i + n])
  {
    hide Bytes, LenSum, KeptUpTo;
    assert EMPTY_CHUNK.keep == Mask(0);
    MoveLanesPacks(EMPTY_CHUNK, 0, src, 8 - h, h, n);
    var k := Filled(n, 8 - h, h);
    if k > 0 {
      assert src.data[8 - h..n] == src.data[..n][8 - h..] == b[8 * i + 8 - h..8 * i + n];
    }
  }

  lemma TailLanes(b: seq<Byte>, c0: AxisChunk, src: AxisChunk, i: nat, n: nat, h: nat)
    requires 0 < h < 8 && 1 <= n <= 8 && src.keep == Mask(n) && i > 0
    requires 8 * i + n <= |b| && b[8 * i..8 * i + n] == src.data[..n]
    requires c0.keep == Mask(h) && c0.data[..h] == b[8 * i - h..8 * i]
    ensures var c := MoveLanes(c0, h, src, 0, 8 - h);
            var k := Filled(n, 0, 8 - h);
            && k > 0 && c.keep == Mask(h + k) && c.data[..h + k] == b[8 * i - h..8 * i + k]
            && k == if n <= 8 - h then n else 8 - h
  {
    hide Bytes, LenSum, KeptUpTo;
    MoveLanesPacks(c0, h, src, 0, 8 - h, n);
    var k := Filled(n, 0, 8 - h);
    assert src.data[0..k] == src.data[..n][..k] == b[8 * i..8 * i + k];
    assert b[8 * i - h..8 * i] + b[8 * i..8 * i + k] == b[8 * i - h..8 * i + k];
  }

  /** A re-aligning read of the stream `b` from offset `from` is complete with output `out`. */
  ghost predicate ReadDone(out: seq<AxisChunk>, b: seq<Byte>, from: nat) {
    if from < |b| then WellFormed(out) && Bytes(out) == b[from..] else Bytes(out) == []
  }

  /** The next byte to read is in lane `8-h` of input chunk `i`, and the output chunks are full. */
  ghost predicate AtHead(out: seq<AxisChunk>, b: seq<Byte>, from: nat, i: nat, h: nat) {
    if from < |b| then
      && (out == [] || Open(out, 8)) && from <= 8 * i + 8 - h < |b|
      && Bytes(out) == b[from..8 * i + 8 - h]
    else out == []
  }

  /** The next byte to read is in lane 0 of input chunk `i`; `c` holds the `h` bytes before it. */
  ghost predicate AtTail(out: seq<AxisChunk>, b: seq<Byte>, from: nat, i: nat, h: nat, c: AxisChunk) {
    && 0 < i && from <= 8 * i - h && 8 * i < |b| && 0 < h < 8
    && (out == [] || Open(out, 8)) && Bytes(out) == b[from..8 * i - h]
    && c.keep == Mask(h) && !c.last && c.data[..h] == b[8 * i - h..8 * i]
  }

  /** Completing the output of a re-aligning read with the chunk `c` that holds `b[at..at+k]`. */
  lemma PushNext(out: seq<AxisChunk>, c: AxisChunk, b: seq<Byte>, from: nat, at: nat, k: nat)
    requires from <= at && 0 < k <= 8 && at + k <= |b|
    requires out == [] || Open(out, 8)
    requires Bytes(out) == b[from..at] && c.keep == Mask(k) && c.data[..k] == b[at..at + k]
    ensures c.last && at + k == |b| ==> ReadDone(Pushed(out, c), b, from)
    ensures k == 8 ==> Open(Pushed(out, c), 8) && Bytes(Pushed(out, c)) == b[from..at + 8]
  {
    hide Bytes, LenSum, KeptUpTo;
    PushedBytes(out, c);
    KeptMask(c, k);
    PushedOpen(out, c, k);
    assert b[from..at] + b[at..at + k] == b[from..at + k];
    assert b[from..|b|] == b[from..];
  }

  lemma HeadResult(b: seq<Byte>, src: AxisChunk, n: nat, out: seq<AxisChunk>, from: nat, i: nat, h: nat)
    requires IsChunk(b, src, i, n) && 0 < h < 8 && from <= 8 * i + 8 - h
    requires AtHead(out, b, from, i, h)
    ensures var c := MoveLanes(EMPTY_CHUNK, 0, src, 8 - h, h);
            if src.last then ReadDone(Pushed(out, c.(last := true)), b, from) else AtTail(out, b, from, i + 1, h, c)
  {
    hide Bytes, LenSum, KeptUpTo, MoveLanes;
    BytesEmpty();
    HeadLanes(b, src, i, n, h);
    var c := MoveLanes(EMPTY_CHUNK, 0, src, 8 - h, h).(last := true);
    if src.last {
      if from < |b| {
        PushNext(out, c, b, from, 8 * i + 8 - h, n - (8 - h));
      } else {
        KeptMask(c, 0);
        PushedBytes(out, c);
      }
    }
  }

  /** The completed tail chunk `c` of `m` bytes. */
  lemma TailPushed(b: seq<Byte>, out: seq<AxisChunk>, from: nat, i: nat, h: nat, c: AxisChunk, m: nat)
    requires 0 < i && 0 < h < m <= 8 && from <= 8 * i - h && 8 * i - h + m <= |b|
    requires (out == [] || Open(out, 8)) && Bytes(out) == b[from..8 * i - h]
    requires c.keep == Mask(m) && c.data[..m] == b[8 * i - h..8 * i - h + m]
    requires if c.last then 8 * i - h + m == |b| else m == 8 && 8 * i - h + 8 < |b|
    ensures if c.last then ReadDone(Pushed(out, c), b, from) else AtHead(Pushed(out, c), b, from, i, h)
  {
    hide Bytes, LenSum, KeptUpTo, Mask, Pushed, Open, WellFormed, ReadDone;
    PushNext(out, c, b, from, 8 * i - h, m);
  }

  lemma TailResult(b: seq<Byte>, src: AxisChunk, n: nat, out: seq<AxisChunk>, from: nat, i: nat, h: nat,
                   c0: AxisChunk, end: bool)
    requires IsChunk(b, src, i, n)
    requires AtTail(out, b, from, i, h, c0)
    requires end == (src.last && n <= 8 - h)
    ensures var c := MoveLanes(c0, h, src, 0, 8 - h).(last := end);
            if end then ReadDone(Pushed(out, c), b, from) else AtHead(Pushed(out, c), b, from, i, h)
  {
    hide Bytes, LenSum, KeptUpTo, MoveLanes, Mask, Pushed, Open, WellFormed, ReadDone, AtHead, Filled;
    TailLanes(b, c0, src, i, n, h);
    var k := if n <= 8 - h then n else 8 - h;
    TailPushed(b, out, from, i, h, MoveLanes(c0, h, src, 0, 8 - h).(last := end), h + k);
  }

  /** `AxisRaw::setTLast`: setting the flag also zeroes the lanes whose keep bit is clear. */
  function WithTLast(c: AxisChunk, last: bool): (r: AxisChunk)
    ensures r.keep == c.keep && r.last == last
  {
    if last && (KeepToLen(c.keep) > 0 || c.keep == Mask(0)) then
      Chunk(c.data[..KeepToLen(c.keep)] + EMPTY_CHUNK.data[KeepToLen(c.keep)..], c.keep, true)
    else Chunk(c.data, c.keep, last)
  }

  lemma WithTLastKeeps(c: AxisChunk, n: nat, last: bool)
    requires n <= 8 && c.keep == Mask(n)
    ensures Kept(WithTLast(c, last)) == Kept(c) == c.data[..n]
  {
    var r := WithTLast(c, last);
    KeepToLenMask(n);
    KeptMask(c, n);
    KeptMask(r, n);
    assert r.data[..n] == c.data[..n];
  }

  /** `dst.setTDataLo(src.getTDataHi()); dst.setTKeepLo(src.getTKeepHi())`. */
  function HiIntoLo(dst: AxisChunk, src: AxisChunk): (r: AxisChunk) {
    Chunk(dst.data[..4] + src.data[..4], dst.keep[..4] + src.keep[..4], dst.last)
  }

  /** `dst.setTDataHi(src.getTDataLo()); dst.setTKeepHi(src.getTKeepLo())`. */
  function LoIntoHi(dst: AxisChunk, src: AxisChunk): (r: AxisChunk) {
    Chunk(src.data[4..] + dst.data[4..], src.keep[4..] + dst.keep[4..], dst.last)
  }

  lemma HiIntoLoPacks(dst: AxisChunk, src: AxisChunk, n: nat, last: bool)
    requires 1 <= n <= 8 && dst.keep == Mask(4) && src.keep == Mask(n)
    ensures var c := WithTLast(HiIntoLo(dst, src), last);
            c.keep == Mask(4 + Filled(n, 0, 4)) && Kept(c) == Kept(dst) + src.data[..Filled(n, 0, 4)]
  {
    var k := Filled(n, 0, 4);
    var c := HiIntoLo(dst, src);
    assert forall i | 0 <= i < 8 :: c.keep[i] == Mask(4 + k)[i];
    assert c.keep == Mask(4 + k);
    WithTLastKeeps(c, 4 + k, last);
    KeptMask(dst, 4);
    assert c.data[..4 + k] == dst.data[..4] + src.data[..k];
  }

  lemma LoIntoHiPacks(src: AxisChunk, n: nat, last: bool)
    requires 4 < n <= 8 && src.keep == Mask(n)
    ensures var c := WithTLast(LoIntoHi(EMPTY_CHUNK, src), last);
            c.keep == Mask(n - 4) && Kept(c) == src.data[4..n]
  {
    var c := LoIntoHi(EMPTY_CHUNK, src);
    assert forall i | 0 <= i < 8 :: c.keep[i] == Mask(n - 4)[i];
    assert c.keep == Mask(n - 4);
    WithTLastKeeps(c, n - 4, last);
  }

  lemma IpHeadStep(q: seq<AxisChunk>, src: seq<AxisChunk>, k: nat, n: nat, prefix: seq<Byte>, done: bool)
    requires 1 <= n <= 8 && k < |src| && src[k].keep == Mask(n)
    requires Open(q, 4) && Bytes(q) == prefix + Bytes(src[..k])
    requires Bytes(src[..k + 1]) == Bytes(src[..k]) + src[k].data[..n]
    requires src[k].last <==> k == |src| - 1
    requires !src[k].last ==> n == 8
    requires done <==> src[k].last && n <= 4
    ensures var r := q[|q| - 1 := WithTLast(HiIntoLo(q[|q| - 1], src[k]), done)];
            && LenSum(r) == LenSum(q) + Filled(n, 0, 4)
            && (done ==> WellFormed(r) && Bytes(r) == prefix + Bytes(src))
            && (!done ==> Open(r, 8) && n > 4 && Bytes(r) == prefix + Bytes(src[..k]) + src[k].data[..4])
  {
    hide Bytes, LenSum, KeptUpTo;
    var c := WithTLast(HiIntoLo(q[|q| - 1], src[k]), done);
    HiIntoLoPacks(q[|q| - 1], src[k], n, done);
    HeadStep(q, src, k, n, 4, prefix, c);
  }

  /** The number of bytes `addIpPayload` appends when asked for `want`: whole chunks, at least one. */
  function AppendCount(want: nat, total: nat): (m: nat) {
    var whole := if want == 0 then 8 else (want + 7) / 8 * 8;
    if whole < total then whole else total
  }

  /** Overwriting the data of one valid lane changes one byte of the stream. */
  lemma ByteReplaced(q: seq<AxisChunk>, k: nat, lane: nat, v: Byte)
    requires WellFormed(q) && k < |q| && lane < 8 && 8 * k + lane < |Bytes(q)|
    ensures var r := q[k := q[k].(data := q[k].data[lane := v])];
            WellFormed(r) && Bytes(r) == Bytes(q)[8 * k + lane := v] && LenSum(r) == LenSum(q)
  {
    var n: nat :| 1 <= n <= 8 && Packed(q, n);
    var r := q[k := q[k].(data := q[k].data[lane := v])];
    assert Packed(r, n);
    PackedLength(q, n);
    PackedLength(r, n);
    forall i | 0 <= i < |Bytes(q)|
      ensures Bytes(r)[i] == Bytes(q)[8 * k + lane := v][i]
    {
      PackedByteAt(q, n, i);
      PackedByteAt(r, n, i);
    }
  }

  lemma {:induction false} LenSumFront(q: seq<AxisChunk>)
    requires q != []
    ensures LenSum(q) == KeepToLen(q[0].keep) + LenSum(q[1..])
  {
    if |q| > 1 {
      LenSumFront(q[..|q| - 1]);
      assert q[..|q| - 1][1..] == q[1..][..|q| - 2];
    }
  }

  class SimPacket {
    var len: int
    var q: seq<AxisChunk>

    ghost predicate Valid()
      reads this
    {
      len == LenSum(q)
    }

    constructor ()
      ensures Valid() && q == []
    {
      len, q := 0, [];
    }

    method PushChunk(c: AxisChunk)
      requires Valid()
      modifies this
      ensures Valid() && q == Pushed(old(q), c)
      ensures Bytes(q) == old(Bytes(q)) + Kept(c)
    {
      PushedBytes(q, c);
      if |q| > 0 {
        q := q[|q| - 1 := q[|q| - 1].(last := false)];
      }
      q := q + [c];
      len := len + KeepToLen(c.keep);
    }

    method PullChunk() returns (c: AxisChunk)
      requires Valid() && q != []
      modifies this
      ensures Valid() && c == old(q)[0] && q == old(q)[1..]
    {
      c := q[0];
      LenSumFront(q);
      q := q[1..];
      len := len - KeepToLen(c.keep);
    }

    /** The `alternate` half of the loop of `addPayload`: bytes 0 and 1 of the packet's chunk `k` go to
        lanes 6 and 7 of the frame's final chunk. */
    method EthFillChunk(ghost ipQ: seq<AxisChunk>, ghost k: nat, ghost header: seq<Byte>, ipChunk: AxisChunk)
      returns (endOfPkt: bool)
      requires Valid() && WellFormed(ipQ) && k < |ipQ| && ipChunk == ipQ[k]
      requires Open(q, 6) && Bytes(q) == header + Bytes(ipQ[..k])
      modifies this
      ensures Valid() && |q| == old(|q|)
      ensures endOfPkt ==> WellFormed(q) && Bytes(q) == header + Bytes(ipQ)
      ensures !endOfPkt ==> Open(q, 8) && Bytes(q) == header + Bytes(ipQ[..k]) + ipChunk.data[..2]
      ensures !endOfPkt ==> ipChunk.keep[2]
    {
      hide Bytes, LenSum, KeptUpTo;
      ghost var n := ChunkOf(ipQ, k);
      var e := |q| - 1;
      var c := MoveLanes(q[e], 6, ipChunk, 0, 2);
      MoveLanesPacks(q[e], 6, ipChunk, 0, 2, n);
      endOfPkt := ipChunk.last && KeepsNoneFrom(ipChunk, 2);
      assert endOfPkt <==> ipChunk.last && n <= 2 by { assert ipChunk.keep[2] <==> 2 < n; }
      var c' := c.(last := endOfPkt);
      KeptIgnoresLast(c, c', |c.keep|);
      HeadStep(q, ipQ, k, n, 2, header, c');
      len := len + (if ipChunk.keep[0] then 1 else 0) + (if ipChunk.keep[1] then 1 else 0);
      q := q[e := c'];
    }

    /** The other half: bytes 2 to 7 of the chunk open a new chunk of the frame. */
    method EthOpenChunk(ghost ipQ: seq<AxisChunk>, ghost k: nat, ghost header: seq<Byte>, ipChunk: AxisChunk)
      requires Valid() && WellFormed(ipQ) && k < |ipQ| && ipChunk == ipQ[k] && ipChunk.keep[2]
      requires Open(q, 8) && Bytes(q) == header + Bytes(ipQ[..k]) + ipChunk.data[..2]
      modifies this
      ensures Valid() && Bytes(q) == header + Bytes(ipQ[..k + 1])
      ensures ipChunk.last ==> WellFormed(q) && Bytes(q) == header + Bytes(ipQ)
      ensures !ipChunk.last ==> k + 1 < |ipQ| && Open(q, 6)
    {
      hide Bytes, LenSum, KeptUpTo;
      ghost var n := ChunkOf(ipQ, k);
      var c := MoveLanes(EMPTY_CHUNK, 0, ipChunk, 2, 6).(last := ipChunk.last);
      EmptyMove(ipChunk, n, 2, 6);
      TailStep(q, ipQ, k, n, 2, header, c);
      PushChunk(c);
    }

    /** `SimEthFrame::addPayload(SimIp4Packet)`: append an IPv4 packet, passed by value, to a frame that
        holds just the 14-byte Ethernet header. */
    method AddEthPayload(ip: SimPacket) returns (ok: bool)
      requires Valid() && WellFormed(q) && WellFormed(ip.q)
      modifies this
      ensures ok == (old(len) == 14)
      ensures !ok ==> len == old(len) && q == old(q)
      ensures ok ==> Valid() && WellFormed(q) && Bytes(q) == old(Bytes(q)) + old(Bytes(ip.q))
      ensures ok ==> len == 14 + |old(Bytes(ip.q))|
    {
      hide Bytes, LenSum, KeptUpTo;
      BytesEmpty();
      if len != 14 {
        return false;
      }
      ghost var header := Bytes(q);
      WellFormedLength(q);
      HeaderIs14(q);
      var ipQ := ip.q;
      var k := 0;  // chunks of the packet already pulled, apart from the current one
      var ipChunk := ipQ[0];
      var alternate, endOfPkt := true, false;
      while !endOfPkt
        invariant Valid() && k < |ipQ| && ipChunk == ipQ[k]
        invariant !endOfPkt && alternate ==> Open(q, 6) && Bytes(q) == header + Bytes(ipQ[..k])
        invariant !endOfPkt && !alternate ==>
                    Open(q, 8) && ipChunk.keep[2] && Bytes(q) == header + Bytes(ipQ[..k]) + ipChunk.data[..2]
        invariant endOfPkt ==> WellFormed(q) && Bytes(q) == header + Bytes(ipQ)
        decreases !endOfPkt, |ipQ| - k, alternate
      {
        if alternate {
          endOfPkt := EthFillChunk(ipQ, k, header, ipChunk);
        } else {
          EthOpenChunk(ipQ, k, header, ipChunk);
          if ipChunk.last {
            endOfPkt := true;
          } else {
            k := k + 1;
            ipChunk := ipQ[k];
          }
        }
        alternate := !alternate;
      }
      WellFormedLength(q);
      return true;
    }

    /** The loop shared by `getIpPacket`, `getArpPacket`, `getUdpDatagram` and `getTcpSegment`: the payload
        starts in lane `8-h` of chunk `start`. */
    method Realign(start: nat, h: nat) returns (out: SimPacket)
      requires WellFormed(q) && 0 < h < 8
      ensures fresh(out) && out.Valid()
      ensures ReadDone(out.q, Bytes(q), 8 * start + 8 - h)
    {
      hide Bytes, LenSum, KeptUpTo;
      BytesEmpty();
      out := new SimPacket();
      var i, alternate, end := start, true, false;
      var c: AxisChunk := EMPTY_CHUNK;
      ghost var b, from := Bytes(q), 8 * start + 8 - h;
      WellFormedLength(q);
      while i < |q| && !end
        invariant fresh(out) && out.Valid() && start <= i
        invariant end ==> ReadDone(out.q, b, from)
        invariant !end && alternate && i < |q| ==> AtHead(out.q, b, from, i, h)
        invariant !end && !alternate ==> i < |q| && AtTail(out.q, b, from, i, h, c)
        invariant !end && alternate && i >= |q| ==> from >= |b| && out.q == []
        decreases !end, |q| - i, !alternate
      {
        if alternate {
          ghost var n := ChunkBytes(q, i);
          HeadResult(b, q[i], n, out.q, from, i, h);
          c := MoveLanes(EMPTY_CHUNK, 0, q[i], 8 - h, h);
          if q[i].last {
            end := true;
            out.PushChunk(c.(last := true));
          }
          i := i + 1;
        } else {
          var done := q[i].last && KeepsNoneFrom(q[i], 8 - h);
          ghost var n := ChunkBytes(q, i);
          TailResult(b, q[i], n, out.q, from, i, h, c, done);
          out.PushChunk(MoveLanes(c, h, q[i], 0, 8 - h).(last := done));
          end := done;
        }
        alternate := !alternate;
      }
    }

    /** `SimEthFrame::getIpPacket`. */
    method GetIpPacket() returns (ip: SimPacket)
      requires WellFormed(q)
      ensures fresh(ip) && ip.Valid() && ReadDone(ip.q, Bytes(q), 14)
    {
      ip := Realign(1, 2);
    }

    /** `SimIp4Packet::getUdpDatagram` and `SimIp4Packet::getTcpSegment`. */
    method GetL4Payload() returns (out: SimPacket)
      requires WellFormed(q)
      ensures fresh(out) && out.Valid() && ReadDone(out.q, Bytes(q), 4 * (q[0].data[0] % 16))
    {
      hide Bytes, LenSum, KeptUpTo;
      var ihl := q[0].data[0] % 16;
      if ihl % 2 == 1 {
        out := Realign(ihl / 2, 4);
        return;
      }
      out := CopyFrom(ihl / 2);
    }

    /** The branch for a header of an even number of 32-bit words: the payload is chunk-aligned. */
    method CopyFrom(start: nat) returns (out: SimPacket)
      requires WellFormed(q)
      ensures fresh(out) && out.Valid() && ReadDone(out.q, Bytes(q), 8 * start)
    {
      hide Bytes, LenSum, KeptUpTo;
      BytesEmpty();
      out := new SimPacket();
      var i := start;
      ghost var b := Bytes(q);
      WellFormedLength(q);
      while i < |q|
        invariant fresh(out) && out.Valid() && start <= i
        invariant i < |q| ==> AtHead(out.q, b, 8 * start, i, 8)
        invariant i >= |q| ==> ReadDone(out.q, b, 8 * start)
      {
        ghost var n := ChunkBytes(q, i);
        var lanes := |q[i].data|;
        AlignedResult(b, q[i], n, out.q, 8 * start, i, lanes);
        out.PushChunk(MoveLanes(EMPTY_CHUNK, 0, q[i], 0, lanes).(last := q[i].last));
        i := i + 1;
      }
    }

    /** First half of the loop of `addIpPayload`: bytes 0 to 3 of the datagram's chunk `k`. */
    method IpFillChunk(ghost src: seq<AxisChunk>, ghost k: nat, ghost header: seq<Byte>, axisUdp: AxisChunk)
      returns (done: bool)
      requires Valid() && WellFormed(src) && k < |src| && axisUdp == src[k]
      requires Open(q, 4) && Bytes(q) == header + Bytes(src[..k])
      modifies this
      ensures Valid()
      ensures done ==> k == |src| - 1 && WellFormed(q) && Bytes(q) == header + Bytes(src)
      ensures !done ==> Open(q, 8) && Bytes(q) == header + Bytes(src[..k]) + axisUdp.data[..4]
      ensures !done ==> KeepToLen(axisUdp.keep) > 4
    {
      hide Bytes, LenSum, KeptUpTo;
      ghost var n := ChunkOf(src, k);
      var e, udpLen := |q| - 1, KeepToLen(axisUdp.keep);
      done := axisUdp.last && udpLen <= 4;
      var c := WithTLast(HiIntoLo(q[e], axisUdp), done);
      IpHeadStep(q, src, k, n, header, done);
      q := q[e := c];
      len := len + if udpLen > 4 then 4 else udpLen;
    }

    /** Second half: bytes 4 to 7 of the chunk. */
    method IpOpenChunk(ghost src: seq<AxisChunk>, ghost k: nat, ghost header: seq<Byte>, axisUdp: AxisChunk, done: bool)
      requires Valid() && WellFormed(src) && k < |src| && axisUdp == src[k] && KeepToLen(axisUdp.keep) > 4
      requires Open(q, 8) && Bytes(q) == header + Bytes(src[..k]) + axisUdp.data[..4]
      requires axisUdp.last ==> done
      modifies this
      ensures Valid() && Bytes(q) == header + Bytes(src[..k + 1])
      ensures if done then WellFormed(q) else k + 1 < |src| && Open(q, 4)
    {
      hide Bytes, LenSum, KeptUpTo;
      ghost var n := ChunkOf(src, k);
      var c := WithTLast(LoIntoHi(EMPTY_CHUNK, axisUdp), done);
      LoIntoHiPacks(axisUdp, n, done);
      TailStep(q, src, k, n, 4, header, c);
      PushChunk(c);
    }

    /** `SimIp4Packet::setIpProtocol`: byte 9 of the packet. */
    method SetIpProtocol(prot: Byte)
      requires Valid() && WellFormed(q) && |q| > 2
      modifies this
      ensures Valid() && WellFormed(q)
      ensures |old(Bytes(q))| > 9 && Bytes(q) == old(Bytes(q))[9 := prot]
    {
      WellFormedLength(q);
      ByteReplaced(q, 1, 1, prot);
      q := q[1 := q[1].(data := q[1].data[1 := prot])];
    }

    /** The loop of `addIpPayload` for a packet that ends in the middle of a chunk. */
    method AppendUnaligned(dgm: SimPacket, total: nat)
      requires this != dgm && Valid() && dgm.Valid() && Open(q, 4) && WellFormed(dgm.q)
      modifies this, dgm
      ensures Valid() && WellFormed(q) && dgm.Valid()
      ensures var b := old(Bytes(dgm.q));
              var m := AppendCount(total, |b|);
              m <= |b| && Bytes(q) == old(Bytes(q)) + b[..m] && Bytes(dgm.q) == b[m..]
    {
      hide *;
      WellFormedLength(dgm.q);
      BytesEmpty();
      ghost var src, header, b := dgm.q, Bytes(q), Bytes(dgm.q);
      ghost var k := 0;
      var axisUdp := dgm.PullChunk();
      var alternate, done, byteCnt := true, false, 0;
      while !done
        invariant Valid() && dgm.Valid()
        invariant k < |src| && axisUdp == src[k] && dgm.q == src[k + 1..]
        invariant !done && alternate ==> Open(q, 4) && Bytes(q) == header + Bytes(src[..k])
        invariant !done && !alternate ==> Open(q, 8) && Bytes(q) == header + Bytes(src[..k]) + axisUdp.data[..4]
        invariant !done ==> byteCnt == 8 * k + if alternate then 0 else 4
        invariant !done && !alternate ==> KeepToLen(axisUdp.keep) > 4
        invariant k == 0 || 8 * k < total
        invariant done ==> WellFormed(q) && Bytes(q) == header + Bytes(src[..k + 1])
        invariant done ==> k == |src| - 1 || 8 * k + 8 >= total
        decreases !done, |src| - k, alternate
      {
        var udpLen := KeepToLen(axisUdp.keep);
        if alternate {
          done := IpFillChunk(src, k, header, axisUdp);
          byteCnt := byteCnt + if udpLen > 4 then 4 else udpLen;
          assert done ==> src[..k + 1] == src;
        } else {
          ghost var n := ChunkOf(src, k);
          byteCnt := byteCnt + (udpLen - 4);
          done := axisUdp.last || byteCnt >= total;
          IpOpenChunk(src, k, header, axisUdp, done);
          if !done {
            axisUdp := dgm.PullChunk();
            k := k + 1;
          }
        }
        alternate := !alternate;
      }
      ghost var n := ChunkOf(src, k);
      ChunkEnds(src, k, n, total);
      BytesParts(src, k + 1);
    }

    /** `SimIp4Packet::addIpPayload(SimUdpDatagram&, int)` for a packet that ends in the middle of a chunk:
        append whole chunks until `want` bytes (all bytes if -1) are reached. Returns false where the
        source stops with a fatal error. The datagram is consumed. */
    method AddIpPayload(dgm: SimPacket, want: int) returns (ok: bool)
      requires this != dgm && Valid() && dgm.Valid() && WellFormed(q) && WellFormed(dgm.q)
      requires len % 8 == 4 && want >= -1
      modifies this, dgm
      ensures ok == (old(len) >= 20 && want <= old(dgm.len))
      ensures !ok ==> q == old(q) && len == old(len) && dgm.q == old(dgm.q) && dgm.len == old(dgm.len)
      ensures ok ==> Valid() && WellFormed(q) && dgm.Valid()
      ensures var b := old(Bytes(dgm.q));
              var m := AppendCount(if want == -1 then |b| else want, |b|);
              ok ==>
                && |old(Bytes(q))| >= 20 && m <= |b|
                && Bytes(q) == old(Bytes(q))[9 := 17] + b[..m]
                && Bytes(dgm.q) == b[m..]
    {
      hide Bytes, LenSum, KeptUpTo;
      WellFormedLength(q);
      WellFormedLength(dgm.q);
      HeaderEndsMidChunk(q, len);
      if len < 20 || want > dgm.len {
        return false;
      }
      ghost var header, b := Bytes(q), Bytes(dgm.q);
      AppendUnaligned(dgm, if want == -1 then dgm.len else want);
      WellFormedLength(q);
      SetIpProtocol(17);
      ghost var m := AppendCount(if want == -1 then |b| else want, |b|);
      UpdateConcat(header, b[..m], 9, 17);
      return true;
    }
  }

  lemma HeaderEndsMidChunk(q: seq<AxisChunk>, l: nat)
    requires WellFormed(q) && LenSum(q) == l && l % 8 == 4
    ensures Open(q, 4) && 8 * |q| == l + 4
  {
    var n: nat :| 1 <= n <= 8 && Packed(q, n);
    PackedLength(q, n);
    EndsAt4(|q| - 1, n, l);
  }

  lemma EndsAt4(m: nat, n: nat, l: nat)
    requires l == 8 * m + n && 1 <= n <= 8 && l % 8 == 4
    ensures n == 4
  {
  }

  lemma UpdateConcat(a: seq<Byte>, b: seq<Byte>, i: nat, v: Byte)
    requires i < |a|
    ensures (a + b)[i := v] == a[i := v] + b
  {
  }

  lemma BytesParts(q: seq<AxisChunk>, k: nat)
    requires k <= |q|
    ensures |Bytes(q[..k])| <= |Bytes(q)|
    ensures Bytes(q[..k]) == Bytes(q)[..|Bytes(q[..k])|] && Bytes(q[k..]) == Bytes(q)[|Bytes(q[..k])|..]
  {
    assert q == q[..k] + q[k..];
    BytesConcat(q[..k], q[k..]);
  }

  /** Where chunk `k` ends in the stream; if it is the final chunk, or if `total` is reached with it and
      not before, this is where `addIpPayload` stops. */
  lemma ChunkEnds(q: seq<AxisChunk>, k: nat, n: nat, total: nat)
    requires WellFormed(q) && k < |q| && 1 <= n <= 8
    requires Bytes(q[..k + 1]) == Bytes(q[..k]) + q[k].data[..n] && |Bytes(q[..k])| == 8 * k
    requires k < |q| - 1 ==> n == 8
    requires k == 0 || 8 * k < total
    ensures |Bytes(q[..k + 1])| == 8 * k + n <= |Bytes(q)|
    ensures k == |q| - 1 || 8 * k + n >= total ==> AppendCount(total, |Bytes(q)|) == 8 * k + n
  {
    BytesParts(q, k + 1);
    assert total > 0 ==> (total + 7) / 8 * 8 >= total > (total + 7) / 8 * 8 - 8;
  }

  lemma AlignedResult(b: seq<Byte>, src: AxisChunk, n: nat, out: seq<AxisChunk>, from: nat, i: nat, lanes: nat)
    requires IsChunk(b, src, i, n) && from <= 8 * i && lanes == 8
    requires AtHead(out, b, from, i, 8)
    ensures var c := MoveLanes(EMPTY_CHUNK, 0, src, 0, lanes).(last := src.last);
            if src.last then ReadDone(Pushed(out, c), b, from) else AtHead(Pushed(out, c), b, from, i + 1, 8)
  {
    var c := MoveLanes(EMPTY_CHUNK, 0, src, 0, lanes).(last := src.last);
    EmptyMove(src, n, 0, lanes);
    KeptMask(c, n);
    PushNext(out, c, b, from, 8 * i, n);
  }

  lemma WellFormedLength(q: seq<AxisChunk>)
    requires WellFormed(q)
    ensures |q| > 0 && |Bytes(q)| == LenSum(q) && 8 * (|q| - 1) < |Bytes(q)| <= 8 * |q|
  {
    var n: nat :| 1 <= n <= 8 && Packed(q, n);
    PackedLength(q, n);
  }

  lemma HeaderIs14(q: seq<AxisChunk>)
    requires WellFormed(q) && LenSum(q) == 14
    ensures |q| == 2 && Open(q, 6)
  {
    var n: nat :| 1 <= n <= 8 && Packed(q, n);
    PackedLength(q, n);
  }

  /** Ethernet encapsulation, then extraction, returns the bytes of every well-formed packet. */
  method EthernetRoundTrip(frame: SimPacket, ip: SimPacket) returns (out: SimPacket)
    requires frame.Valid() && WellFormed(frame.q) && frame.len == 14 && WellFormed(ip.q)
    modifies frame
    ensures WellFormed(out.q) && Bytes(out.q) == old(Bytes(ip.q))
  {
    hide Bytes, LenSum, KeptUpTo;
    ghost var header, payload := Bytes(frame.q), Bytes(ip.q);
    WellFormedLength(frame.q);
    WellFormedLength(ip.q);
    var ok := frame.AddEthPayload(ip);
    out := frame.GetIpPacket();
    assert (header + payload)[14..] == payload;
  }

  /** IPv4/UDP encapsulation, then extraction, for a header of an odd number (5 to 15) of 32-bit words. */
  method UdpRoundTrip(ip: SimPacket, dgm: SimPacket) returns (out: SimPacket)
    requires ip != dgm && ip.Valid() && dgm.Valid() && WellFormed(ip.q) && WellFormed(dgm.q)
    requires var ihl := ip.q[0].data[0] % 16; ihl % 2 == 1 && 5 <= ihl && ip.len == 4 * ihl
    modifies ip, dgm
    ensures WellFormed(out.q) && Bytes(out.q) == old(Bytes(dgm.q)) && dgm.len == 0
    ensures ip.len == old(ip.len) + |old(Bytes(dgm.q))|
  {
    hide Bytes, LenSum, KeptUpTo;
    ghost var header, payload := Bytes(ip.q), Bytes(dgm.q);
    WellFormedLength(ip.q);
    WellFormedLength(dgm.q);
    FirstByte(ip.q);
    var ok := ip.AddIpPayload(dgm, -1);
    WellFormedLength(ip.q);
    FirstByte(ip.q);
    AppendAll(|payload|);
    assert payload[..|payload|] == payload;
    out := ip.GetL4Payload();
    assert (header[9 := 17] + payload)[|header|..] == payload;
    EmptyLength(dgm.q);
  }

  lemma FirstByte(q: seq<AxisChunk>)
    requires WellFormed(q)
    ensures |Bytes(q)| > 0 && Bytes(q)[0] == q[0].data[0]
  {
    var n: nat :| 1 <= n <= 8 && Packed(q, n);
    PackedByteAt(q, n, 0);
  }

  lemma AppendAll(n: nat)
    ensures AppendCount(n, n) == n
  {
  }

  lemma {:induction false} EmptyLength(q: seq<AxisChunk>)
    requires Bytes(q) == []
    ensures LenSum(q) == 0
  {
    if q != [] {
      EmptyLength(q[..|q| - 1]);
      var c := q[|q| - 1];
      if KeepToLen(c.keep) > 0 {
        KeptMask(c, KeepToLen(c.keep));
      }
    }
  }
}
