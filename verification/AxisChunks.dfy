/** The 64-bit AXI4-Stream chunk (`AxisRaw`) and the byte stream that a queue of chunks carries.
    Lane `i` of a chunk holds bits 8*i+7 .. 8*i of `tdata`; `keep[i]` is bit `i` of `tkeep`. */
module AxisChunks {
  type Byte = b: nat | b < 256

  datatype Chunk = Chunk(data: seq<Byte>, keep: seq<bool>, last: bool)

  type AxisChunk = c: Chunk | |c.data| == 8 && |c.keep| == 8
    witness Chunk([0, 0, 0, 0, 0, 0, 0, 0], [false, false, false, false, false, false, false, false], false)

  /** `AxisRaw(0, 0, 0)`. */
  const EMPTY_CHUNK: AxisChunk :=
    Chunk([0, 0, 0, 0, 0, 0, 0, 0], [false, false, false, false, false, false, false, false], false)

  /** The contiguous keep pattern of a chunk that holds `n` bytes. */
  function Mask(n: nat): (m: seq<bool>)
    requires n <= 8
    ensures |m| == 8 && forall i | 0 <= i < 8 :: m[i] <==> i < n
  {
    seq(8, i requires 0 <= i < 8 => i < n)
  }

  lemma MaskInjective(m: nat, n: nat)
    requires m <= 8 && n <= 8
    ensures Mask(m) == Mask(n) ==> m == n
  {
    if m < n {
      assert Mask(n)[m] != Mask(m)[m];
    } else if n < m {
      assert Mask(n)[n] != Mask(m)[n];
    }
  }

  /** The number of valid bytes: only the eight contiguous patterns have a nonzero length. */
  function KeepToLen(keep: seq<bool>): (n: nat)
    ensures n <= 8
    ensures n > 0 ==> keep == Mask(n)
    ensures n == 0 ==> forall m: nat | 1 <= m <= 8 :: keep != Mask(m)
  {
    if keep == Mask(1) then 1 else if keep == Mask(2) then 2
    else if keep == Mask(3) then 3 else if keep == Mask(4) then 4
    else if keep == Mask(5) then 5 else if keep == Mask(6) then 6
    else if keep == Mask(7) then 7 else if keep == Mask(8) then 8
    else 0
  }

  lemma KeepToLenMask(n: nat)
    requires n <= 8
    ensures KeepToLen(Mask(n)) == n
  {
    MaskInjective(KeepToLen(Mask(n)), n);
  }

  /** The bytes of the first `n` lanes whose keep bit is set, in lane order. */
  function KeptUpTo(c: AxisChunk, n: nat): (s: seq<Byte>)
    requires n <= 8
  {
    if n == 0 then []
    else KeptUpTo(c, n - 1) + (if c.keep[n - 1] then [c.data[n - 1]] else [])
  }

  function Kept(c: AxisChunk): (s: seq<Byte>) {
    KeptUpTo(c, |c.keep|)
  }

  lemma {:induction false} KeptUpToMask(c: AxisChunk, n: nat, k: nat)
    requires n <= 8 && k <= 8 && c.keep == Mask(k)
    ensures KeptUpTo(c, n) == c.data[..if n < k then n else k]
  {
    if n > 0 {
      KeptUpToMask(c, n - 1, k);
    }
  }

  lemma KeptMask(c: AxisChunk, k: nat)
    requires k <= 8 && c.keep == Mask(k)
    ensures Kept(c) == c.data[..k]
  {
    KeptUpToMask(c, |c.keep|, k);
  }

  /** The byte stream carried by a queue of chunks. */
  function Bytes(q: seq<AxisChunk>): (s: seq<Byte>) {
    if q == [] then [] else Bytes(q[..|q| - 1]) + Kept(q[|q| - 1])
  }

  lemma BytesEmpty()
    ensures Bytes([]) == []
  {
  }

  lemma BytesSnoc(q: seq<AxisChunk>, c: AxisChunk)
    ensures Bytes(q + [c]) == Bytes(q) + Kept(c)
  {
    assert (q + [c])[..|q|] == q;
  }

  lemma {:induction false} BytesConcat(a: seq<AxisChunk>, b: seq<AxisChunk>)
    ensures Bytes(a + b) == Bytes(a) + Bytes(b)
  {
    hide Bytes, KeptUpTo;
    if b == [] {
      assert a + b == a;
      BytesEmpty();
    } else {
      var b', c := b[..|b| - 1], b[|b| - 1];
      assert a + b == (a + b') + [c] && b == b' + [c];
      BytesConcat(a, b');
      BytesSnoc(a + b', c);
      BytesSnoc(b', c);
      assert (Bytes(a) + Bytes(b')) + Kept(c) == Bytes(a) + (Bytes(b') + Kept(c));
    }
  }

  /** Clearing or setting `last` flags does not touch the byte stream. */
  lemma {:induction false} BytesIgnoreLast(a: seq<AxisChunk>, b: seq<AxisChunk>)
    requires |a| == |b|
    requires forall i | 0 <= i < |a| :: a[i].data == b[i].data && a[i].keep == b[i].keep
    ensures Bytes(a) == Bytes(b)
    ensures LenSum(a) == LenSum(b)
  {
    if a != [] {
      var n := |a| - 1;
      BytesIgnoreLast(a[..n], b[..n]);
      KeptIgnoresLast(a[n], b[n], |a[n].keep|);
    }
  }

  lemma {:induction false} KeptIgnoresLast(a: AxisChunk, b: AxisChunk, n: nat)
    requires n <= 8 && a.data == b.data && a.keep == b.keep
    ensures KeptUpTo(a, n) == KeptUpTo(b, n)
  {
    if n > 0 {
      KeptIgnoresLast(a, b, n - 1);
    }
  }

  /** The sum of the chunk lengths, which the source's `len` fields are meant to equal. */
  function LenSum(q: seq<AxisChunk>): (n: nat) {
    if q == [] then 0 else LenSum(q[..|q| - 1]) + KeepToLen(q[|q| - 1].keep)
  }

  lemma LenSumSnoc(q: seq<AxisChunk>, c: AxisChunk)
    ensures LenSum(q + [c]) == LenSum(q) + KeepToLen(c.keep)
  {
    assert (q + [c])[..|q|] == q;
  }

  /** Every chunk but the final one is full; the final one holds `n` bytes. */
  ghost predicate Packed(q: seq<AxisChunk>, n: nat) {
    && |q| > 0 && n <= 8
    && (forall i | 0 <= i < |q| - 1 :: q[i].keep == Mask(8))
    && q[|q| - 1].keep == Mask(n)
  }

  /** A complete frame, packet, datagram or segment: packed, nonempty, `last` on the final chunk only. */
  ghost predicate WellFormed(q: seq<AxisChunk>) {
    && (exists n: nat | 1 <= n <= 8 :: Packed(q, n))
    && (forall i | 0 <= i < |q| :: q[i].last <==> i == |q| - 1)
  }

  /** All chunks are full. */
  ghost predicate Full(q: seq<AxisChunk>) {
    forall i | 0 <= i < |q| :: q[i].keep == Mask(8)
  }

  lemma {:induction false} FullLength(q: seq<AxisChunk>)
    requires Full(q)
    ensures |Bytes(q)| == 8 * |q| == LenSum(q)
  {
    if q != [] {
      var q', c := q[..|q| - 1], q[|q| - 1];
      assert Full(q');
      FullLength(q');
      KeptMask(c, 8);
      KeepToLenMask(8);
    }
  }

  lemma PackedLength(q: seq<AxisChunk>, n: nat)
    requires Packed(q, n)
    ensures |Bytes(q)| == 8 * (|q| - 1) + n == LenSum(q)
  {
    FullLength(q[..|q| - 1]);
    KeptMask(q[|q| - 1], n);
    KeepToLenMask(n);
  }

  lemma BytesTake(q: seq<AxisChunk>, k: nat)
    requires k < |q|
    ensures Bytes(q[..k + 1]) == Bytes(q[..k]) + Kept(q[k])
  {
    assert q[..k + 1] == q[..k] + [q[k]];
    BytesSnoc(q[..k], q[k]);
  }

  /** Byte `i` of a packed queue sits in lane `i % 8` of chunk `i / 8`. */
  lemma {:induction false} PackedByteAt(q: seq<AxisChunk>, n: nat, i: nat)
    requires Packed(q, n) && i < 8 * (|q| - 1) + n
    ensures i < |Bytes(q)| && i / 8 < |q| && Bytes(q)[i] == q[i / 8].data[i % 8]
    decreases |q|
  {
    var m := |q| - 1;
    PackedLength(q, n);
    KeptMask(q[m], n);
    FullLength(q[..m]);
    if i < 8 * m {
      PackedByteAt(q[..m], 8, i);
    }
  }

  /** Copy lanes `s .. s+n` of `src`, those whose keep bit is set, to lanes `d .. d+n` of `dst`. */
  function MoveLanes(dst: AxisChunk, d: nat, src: AxisChunk, s: nat, n: nat): (r: AxisChunk)
    requires d + n <= 8 && s + n <= 8
    ensures r.last == dst.last
  {
    if n == 0 then dst else
      var r := MoveLanes(dst, d, src, s, n - 1);
      if src.keep[s + n - 1] then
        r.(data := r.data[d + n - 1 := src.data[s + n - 1]], keep := r.keep[d + n - 1 := true])
      else r
  }

  /** How many of the lanes `s .. s+n` a chunk of `len` bytes fills. */
  function Filled(len: nat, s: nat, n: nat): (k: nat)
    ensures k <= n
  {
    if len <= s then 0 else if len - s < n then len - s else n
  }

  /** `r` is `dst`, which holds `d` bytes, with the `k` bytes of `src` from lane `s` appended. */
  ghost predicate Appended(r: AxisChunk, dst: AxisChunk, d: nat, src: AxisChunk, s: nat, k: nat)
    requires d + k <= 8 && s + k <= 8
  {
    && (forall i | 0 <= i < 8 :: r.keep[i] == (i < d + k))
    && r.data[..d] == dst.data[..d]
    && r.data[d..d + k] == src.data[s..s + k]
  }

  lemma OneLaneAppends(r: AxisChunk, dst: AxisChunk, d: nat, src: AxisChunk, s: nat, n: nat)
    requires 0 < n && d + n <= 8 && s + n <= 8 && Appended(r, dst, d, src, s, n - 1)
    ensures var t := r.(data := r.data[d + n - 1 := src.data[s + n - 1]], keep := r.keep[d + n - 1 := true]);
            Appended(t, dst, d, src, s, n)
  {
    var t := r.data[d + n - 1 := src.data[s + n - 1]];
    assert t[..d] == r.data[..d];
    assert t[d..d + n] == r.data[d..d + n - 1] + [src.data[s + n - 1]];
    assert src.data[s..s + n] == src.data[s..s + n - 1] + [src.data[s + n - 1]];
  }

  lemma {:induction false} MoveLanesAppends(dst: AxisChunk, d: nat, src: AxisChunk, s: nat, n: nat, len: nat)
    requires d + n <= 8 && s + n <= 8 && len <= 8
    requires dst.keep == Mask(d) && src.keep == Mask(len)
    ensures Appended(MoveLanes(dst, d, src, s, n), dst, d, src, s, Filled(len, s, n))
  {
    if n > 0 {
      MoveLanesAppends(dst, d, src, s, n - 1, len);
      var r' := MoveLanes(dst, d, src, s, n - 1);
      if s + n - 1 < len {
        assert src.keep[s + n - 1];
        assert Filled(len, s, n) == n && Filled(len, s, n - 1) == n - 1;
        OneLaneAppends(r', dst, d, src, s, n);
      } else {
        assert !src.keep[s + n - 1];
        assert MoveLanes(dst, d, src, s, n) == r' && Filled(len, s, n) == Filled(len, s, n - 1);
      }
    }
  }

  lemma MoveLanesPacks(dst: AxisChunk, d: nat, src: AxisChunk, s: nat, n: nat, len: nat)
    requires d + n <= 8 && s + n <= 8 && len <= 8
    requires dst.keep == Mask(d) && src.keep == Mask(len)
    ensures var r := MoveLanes(dst, d, src, s, n);
            var k := Filled(len, s, n);
            && r.keep == Mask(d + k)
            && r.data[..d + k] == dst.data[..d] + src.data[s..s + k]
            && Kept(r) == Kept(dst) + src.data[s..s + k]
  {
    var r := MoveLanes(dst, d, src, s, n);
    var k := Filled(len, s, n);
    MoveLanesAppends(dst, d, src, s, n, len);
    assert r.keep == Mask(d + k);
    assert r.data[..d + k] == r.data[..d] + r.data[d..d + k];
    KeptMask(dst, d);
    KeptMask(r, d + k);
  }
}
