/** The Internet checksum of section 2 of RFC 1071 as a reference definition, and the arithmetic modulo
    65535 that relates it to deferred carries, repeated folding and byte-swapped accumulation. */
module InternetChecksum {
  import opened AxisChunks

  type U16 = x: nat | x < 0x1_0000

  /** One's complement addition: the carry out of bit 15 is added back. */
  function Add1c(a: U16, b: U16): (r: U16) {
    if a + b > 0xFFFF then a + b - 0xFFFF else a + b
  }

  function Word(hi: Byte, lo: Byte): (w: U16) {
    (hi as int) * 256 + lo as int
  }

  /** The one's complement sum of the big-endian 16-bit words of `s`, padded with a zero byte. */
  function OnesSum(s: seq<Byte>): (r: U16) {
    if |s| == 0 then 0
    else if |s| == 1 then 256 * s[0]
    else Add1c(Word(s[0], s[1]), OnesSum(s[2..]))
  }

  /** The Internet checksum: the one's complement of the one's complement sum. */
  function Checksum(s: seq<Byte>): (r: U16) {
    0xFFFF - OnesSum(s)
  }

  /** The example of section 3 of RFC 1071. */
  lemma RfcExample()
    ensures Checksum([0x00, 0x01, 0xf2, 0x03, 0xf4, 0xf5, 0xf6, 0xf7]) == 0x220d
  {
    var s: seq<Byte> := [0x00, 0x01, 0xf2, 0x03, 0xf4, 0xf5, 0xf6, 0xf7];
    assert s[2..] == [0xf2, 0x03, 0xf4, 0xf5, 0xf6, 0xf7];
    assert s[2..][2..] == [0xf4, 0xf5, 0xf6, 0xf7];
    assert s[2..][2..][2..] == [0xf6, 0xf7] && s[2..][2..][2..][2..] == [];
    assert OnesSum(s[2..][2..][2..]) == 0xf6f7;
    assert OnesSum(s[2..][2..]) == 0xebed;
    assert OnesSum(s[2..]) == 0xddf1;
  }

  /** The same words, summed without any folding, in either byte order. */
  function BeSum(s: seq<Byte>): nat {
    if |s| == 0 then 0
    else if |s| == 1 then 256 * s[0]
    else 256 * s[0] + s[1] + BeSum(s[2..])
  }

  function LeSum(s: seq<Byte>): nat {
    if |s| == 0 then 0
    else if |s| == 1 then s[0]
    else s[0] + 256 * s[1] + LeSum(s[2..])
  }

  /** The nonzero representative in 1 .. 65535, or zero for zero. */
  function Fold(x: nat): (r: U16)
    ensures x > 0 ==> r > 0
  {
    if x == 0 then 0 else 1 + (x - 1) % 0xFFFF
  }

  /** `(x & 0xFFFF) + (x >> 16)`. */
  function FoldOnce(x: nat): (r: nat) {
    x % 0x1_0000 + x / 0x1_0000
  }

  lemma FoldFixed(x: U16)
    ensures Fold(x) == x
  {
  }

  /** `x` and its fold differ by a multiple of 65535. */
  lemma FoldQuotient(x: nat) returns (k: nat)
    requires x > 0
    ensures x == Fold(x) + 0xFFFF * k
  {
    k := (x - 1) / 0xFFFF;
  }

  lemma FoldShift(x: nat, k: nat)
    requires x > 0
    ensures Fold(x + 0xFFFF * k) == Fold(x)
  {
    var y := x - 1;
    var j := y / 0xFFFF;
    assert y + 0xFFFF * k == 0xFFFF * (j + k) + y % 0xFFFF;
    DivModUnique(y + 0xFFFF * k, j + k, y % 0xFFFF);
  }

  lemma DivModUnique(x: int, q: int, r: int)
    requires 0 <= r < 0xFFFF && x == 0xFFFF * q + r
    ensures x / 0xFFFF == q && x % 0xFFFF == r
  {
  }

  lemma FoldOnceKeeps(x: nat)
    ensures Fold(FoldOnce(x)) == Fold(x)
    ensures x > 0xFFFF ==> FoldOnce(x) < x
  {
    var q := x / 0x1_0000;
    assert x == FoldOnce(x) + 0xFFFF * q;
    if x > 0 {
      FoldShift(FoldOnce(x), q);
    }
  }

  lemma FoldAdd(x: nat, w: U16)
    ensures Fold(w + x) == Add1c(w, Fold(x))
  {
    if x > 0 {
      var k := FoldQuotient(x);
      FoldShift(w + Fold(x), k);
      var s := w + Fold(x);
      if s > 0xFFFF {
        FoldShift(s - 0xFFFF, 1);
      }
    }
  }

  lemma {:induction false} OnesSumIsFold(s: seq<Byte>)
    ensures OnesSum(s) == Fold(BeSum(s))
  {
    if |s| >= 2 {
      OnesSumIsFold(s[2..]);
      FoldAdd(BeSum(s[2..]), Word(s[0], s[1]));
    }
  }

  lemma {:induction false} SumsConcat(a: seq<Byte>, b: seq<Byte>)
    requires |a| % 2 == 0
    ensures BeSum(a + b) == BeSum(a) + BeSum(b)
    ensures LeSum(a + b) == LeSum(a) + LeSum(b)
  {
    if a == [] {
      assert a + b == b;
    } else {
      SumsConcat(a[2..], b);
      assert (a + b)[2..] == a[2..] + b;
    }
  }

  lemma {:induction false} SumsBound(s: seq<Byte>)
    ensures LeSum(s) <= 0xFFFF * ((|s| + 1) / 2) && BeSum(s) <= 0xFFFF * ((|s| + 1) / 2)
  {
    if |s| >= 2 {
      SumsBound(s[2..]);
    }
  }

  /** The sum of the bytes at odd offsets. */
  function OddSum(s: seq<Byte>): nat {
    if |s| < 2 then 0 else s[1] + OddSum(s[2..])
  }

  /** Swapping the bytes of every word multiplies the sum by 256, modulo 65535. */
  lemma {:induction false} LeIsSwappedBe(s: seq<Byte>)
    ensures 256 * LeSum(s) == BeSum(s) + 0xFFFF * OddSum(s)
    ensures LeSum(s) == 0 <==> BeSum(s) == 0
  {
    if |s| >= 2 {
      LeIsSwappedBe(s[2..]);
    }
  }

  /** `byteSwap16`. */
  function Swap16(v: U16): (r: U16) {
    v % 256 * 256 + v / 256
  }

  lemma SwapIsTimes256(v: U16)
    ensures 256 * v == Swap16(v) + 0xFFFF * (v / 256)
    ensures v > 0 ==> Swap16(v) > 0
    ensures Swap16(0xFFFF - v) == 0xFFFF - Swap16(v)
  {
    var a, b := v / 256, v % 256;
    assert v == 256 * a + b;
    var w: U16 := 0xFFFF - v;
    assert w == 256 * (255 - a) + (255 - b);
    DivMod256(w, 255 - a, 255 - b);
  }

  lemma DivMod256(x: nat, q: nat, r: nat)
    requires r < 256 && x == 256 * q + r
    ensures x / 256 == q && x % 256 == r
  {
  }

  /** Folding the little-endian sum and swapping the result folds the big-endian sum. */
  lemma SwapFold(s: seq<Byte>)
    ensures Swap16(Fold(LeSum(s))) == Fold(BeSum(s))
  {
    LeIsSwappedBe(s);
    var x := LeSum(s);
    if x > 0 {
      var k := FoldQuotient(x);
      var v := Fold(x);
      SwapIsTimes256(v);
      assert 256 * x == Swap16(v) + 0xFFFF * (v / 256 + 256 * k);
      FoldShift(Swap16(v), v / 256 + 256 * k);
      FoldFixed(Swap16(v));
      FoldShift(BeSum(s), OddSum(s));
    }
  }

  /** The little-endian algorithm: sum, fold, complement, swap. */
  lemma LittleEndianChecksum(s: seq<Byte>, folded: U16)
    requires folded == Fold(LeSum(s))
    ensures Swap16(0xFFFF - folded) == Checksum(s)
  {
    SwapFold(s);
    OnesSumIsFold(s);
    SwapIsTimes256(folded);
  }

  /** Replacing a zero word by the checksum of the whole makes the one's complement sum all ones: the
      verification rule of section 1 of RFC 1071. */
  lemma StoredChecksumVerifies(a: seq<Byte>, b: seq<Byte>, c: U16)
    requires |a| % 2 == 0
    requires c == Checksum(a + [0, 0] + b)
    ensures OnesSum(a + [c / 256, c % 256] + b) == 0xFFFF
  {
    hide BeSum, LeSum, OnesSum, Fold;
    SumAround(a, 0, b);
    SumAround(a, c, b);
    OnesSumIsFold(a + [0, 0] + b);
    OnesSumIsFold(a + [c / 256, c % 256] + b);
    FoldAdd(BeSum(a + [0, 0] + b), c);
  }

  lemma SumAround(a: seq<Byte>, c: U16, b: seq<Byte>)
    requires |a| % 2 == 0
    ensures BeSum(a + [c / 256, c % 256] + b) == BeSum(a) + c + BeSum(b)
  {
    var w: seq<Byte> := [c / 256, c % 256];
    assert w[2..] == [] && BeSum(w) == 256 * w[0] + w[1] + BeSum(w[2..]);
    hide BeSum, LeSum;
    SumsConcat(a + w, b);
    SumsConcat(a, w);
  }

  /** The checksum is zero exactly when the plain sum of the words is a positive multiple of 65535. */
  lemma ZeroChecksum(s: seq<Byte>)
    ensures Checksum(s) == 0 <==> BeSum(s) > 0 && BeSum(s) % 0xFFFF == 0
  {
    hide OnesSum, BeSum;
    OnesSumIsFold(s);
    FullFold(BeSum(s));
  }

  lemma FullFold(x: nat)
    ensures Fold(x) == 0xFFFF <==> x > 0 && x % 0xFFFF == 0
  {
    if x > 0 {
      var q, r := (x - 1) / 0xFFFF, (x - 1) % 0xFFFF;
      assert x - 1 == 0xFFFF * q + r;
      if r == 0xFFFE {
        DivModUnique(x, q + 1, 0);
      } else {
        DivModUnique(x, q, r + 1);
      }
    }
  }
}
