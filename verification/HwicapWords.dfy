/** 32-bit configuration words: how the FPGA Management Core assembles four bytes into a word for the
    HWICAP, in either byte order, and which words end a transfer. */
module HwicapWords {
  type Byte = bv8
  type Word = bv32

  /** The size of `bufferIn`, through which both paths read. */
  const IN_BUFFER_SIZE: nat := 4096

  const ICAP_FIFO_POISON_PILL: Word := 0x0a0b1c2d
  const ICAP_FIFO_POISON_PILL_REVERSE: Word := 0x2d1c0b0a

  /** Four bytes as a word: little-endian if `notToSwap` is set, big-endian by default. */
  function Pack(b: seq<Byte>, notToSwap: bool): (w: Word)
    requires |b| == 4
  {
    if notToSwap then Join(b[0], b[1], b[2], b[3]) else Join(b[3], b[2], b[1], b[0])
  }

  function Join(b0: Byte, b1: Byte, b2: Byte, b3: Byte): Word {
    (b0 as Word) | ((b1 as Word) << 8) | ((b2 as Word) << 16) | ((b3 as Word) << 24)
  }

  /** Byte `k` of a word, from the least significant one. */
  function Byte0(w: Word): Byte { (w & 0xFF) as Byte }

  function Byte1(w: Word): Byte { ((w >> 8) & 0xFF) as Byte }

  function Byte2(w: Word): Byte { ((w >> 16) & 0xFF) as Byte }

  function Byte3(w: Word): Byte { ((w >> 24) & 0xFF) as Byte }

  /** The four bytes of a word, in the same order. */
  function Unpack(w: Word, notToSwap: bool): (b: seq<Byte>)
    ensures |b| == 4
  {
    if notToSwap then [Byte0(w), Byte1(w), Byte2(w), Byte3(w)] else [Byte3(w), Byte2(w), Byte1(w), Byte0(w)]
  }

  lemma JoinSplits(b0: Byte, b1: Byte, b2: Byte, b3: Byte)
    ensures var w := Join(b0, b1, b2, b3);
            Byte0(w) == b0 && Byte1(w) == b1 && Byte2(w) == b2 && Byte3(w) == b3
  {
  }

  lemma UnpackPack(b: seq<Byte>, notToSwap: bool)
    requires |b| == 4
    ensures Unpack(Pack(b, notToSwap), notToSwap) == b
  {
    hide Join, Byte0, Byte1, Byte2, Byte3;
    if notToSwap {
      JoinSplits(b[0], b[1], b[2], b[3]);
    } else {
      JoinSplits(b[3], b[2], b[1], b[0]);
    }
  }

  /** The two alignments of repeated CR LF in a word. */
  predicate IsNewline(w: Word) {
    w == 0x0d0a0d0a || w == 0x0a0d0a0d
  }

  predicate IsStop(w: Word) {
    IsNewline(w) || w == ICAP_FIFO_POISON_PILL || w == ICAP_FIFO_POISON_PILL_REVERSE
  }

  const CRLFCRLF: seq<Byte> := [0x0d, 0x0a, 0x0d, 0x0a]

  lemma NewlinePacks(notToSwap: bool)
    ensures IsNewline(Pack(CRLFCRLF, notToSwap))
  {
  }

  /** Only these two byte groups make a newline word, in either byte order. */
  lemma NewlineBytes(b: seq<Byte>, notToSwap: bool)
    requires |b| == 4
    ensures IsNewline(Pack(b, notToSwap)) <==> b == CRLFCRLF || b == [0x0a, 0x0d, 0x0a, 0x0d]
  {
    hide Pack;
    NewlinePacks(notToSwap);
    UnpackPack(b, notToSwap);
    NewlineUnpacks(notToSwap);
  }

  /** The four byte groups that end a transfer, in either byte order. */
  lemma StopBytes(b: seq<Byte>, notToSwap: bool)
    requires |b| == 4
    ensures IsStop(Pack(b, notToSwap))
            <==> b == [0x0d, 0x0a, 0x0d, 0x0a] || b == [0x0a, 0x0d, 0x0a, 0x0d]
                 || b == [0x0a, 0x0b, 0x1c, 0x2d] || b == [0x2d, 0x1c, 0x0b, 0x0a]
  {
    NewlineBytes(b, notToSwap);
    PillUnpacks(notToSwap);
    UnpackPack(b, notToSwap);
    hide Pack, Unpack, IsNewline;
  }

  lemma PillUnpacks(notToSwap: bool)
    ensures Unpack(0x0a0b1c2d, notToSwap) == if notToSwap then [0x2d, 0x1c, 0x0b, 0x0a] else [0x0a, 0x0b, 0x1c, 0x2d]
    ensures Unpack(0x2d1c0b0a, notToSwap) == if notToSwap then [0x0a, 0x0b, 0x1c, 0x2d] else [0x2d, 0x1c, 0x0b, 0x0a]
    ensures Pack([0x0a, 0x0b, 0x1c, 0x2d], notToSwap) == if notToSwap then 0x2d1c0b0a else 0x0a0b1c2d
    ensures Pack([0x2d, 0x1c, 0x0b, 0x0a], notToSwap) == if notToSwap then 0x0a0b1c2d else 0x2d1c0b0a
  {
  }

  lemma NewlineUnpacks(notToSwap: bool)
    ensures Unpack(0x0d0a0d0a, notToSwap) == if notToSwap then [0x0a, 0x0d, 0x0a, 0x0d] else CRLFCRLF
    ensures Unpack(0x0a0d0a0d, notToSwap) == if notToSwap then CRLFCRLF else [0x0a, 0x0d, 0x0a, 0x0d]
    ensures Pack([0x0a, 0x0d, 0x0a, 0x0d], notToSwap) == if notToSwap then 0x0d0a0d0a else 0x0a0d0a0d
  {
  }

  /** The words of a byte string; a final group of fewer than four bytes is not a word. */
  function Words(s: seq<Byte>, notToSwap: bool): (ws: seq<Word>)
    ensures |ws| == |s| / 4
  {
    if |s| < 4 then [] else [Pack(s[..4], notToSwap)] + Words(s[4..], notToSwap)
  }

  function UnpackAll(ws: seq<Word>, notToSwap: bool): (s: seq<Byte>)
    ensures |s| == 4 * |ws|
  {
    if ws == [] then [] else Unpack(ws[0], notToSwap) + UnpackAll(ws[1..], notToSwap)
  }

  lemma {:induction false} WordsConcat(a: seq<Byte>, b: seq<Byte>, notToSwap: bool)
    requires |a| % 4 == 0
    ensures Words(a + b, notToSwap) == Words(a, notToSwap) + Words(b, notToSwap)
  {
    hide Pack;
    if a == [] {
      assert a + b == b;
    } else {
      WordsConcat(a[4..], b, notToSwap);
      assert (a + b)[4..] == a[4..] + b && (a + b)[..4] == a[..4];
    }
  }

  lemma OneWord(b: seq<Byte>, notToSwap: bool)
    requires |b| == 4
    ensures Words(b, notToSwap) == [Pack(b, notToSwap)]
  {
    assert b[..4] == b;
  }

  // ---- Words packed in different byte orders ----

  /** The words of `s`, word `k` in the order `os[k]`. */
  function Mixed(s: seq<Byte>, os: seq<bool>): (ws: seq<Word>)
    requires |os| == |s| / 4
    ensures |ws| == |os|
  {
    if |s| < 4 then [] else [Pack(s[..4], os[0])] + Mixed(s[4..], os[1..])
  }

  function Uniform(n: nat, notToSwap: bool): (os: seq<bool>)
    ensures |os| == n
  {
    seq(n, _ => notToSwap)
  }

  lemma {:induction false} MixedUniform(s: seq<Byte>, notToSwap: bool)
    ensures Mixed(s, Uniform(|s| / 4, notToSwap)) == Words(s, notToSwap)
  {
    hide Pack;
    if |s| >= 4 {
      MixedUniform(s[4..], notToSwap);
      assert Uniform(|s| / 4, notToSwap)[1..] == Uniform(|s[4..]| / 4, notToSwap);
    }
  }

  lemma MixedNext(s: seq<Byte>, os: seq<bool>)
    requires |os| == |s| / 4 && |s| >= 4
    ensures Mixed(s, os) == [Pack(s[..4], os[0])] + Mixed(s[4..], os[1..])
  {
    hide Pack;
  }

  lemma MixedNone(s: seq<Byte>)
    requires |s| < 4
    ensures Mixed(s, []) == []
  {
  }

  lemma {:induction false} MixedConcat(a: seq<Byte>, b: seq<Byte>, os: seq<bool>, ps: seq<bool>)
    requires |a| % 4 == 0 && |os| == |a| / 4 && |ps| == |b| / 4
    ensures |os + ps| == |a + b| / 4 && Mixed(a + b, os + ps) == Mixed(a, os) + Mixed(b, ps)
  {
    hide Pack, Mixed;
    if a == [] {
      MixedNone(a);
      assert a + b == b && os + ps == ps;
    } else {
      MixedConcat(a[4..], b, os[1..], ps);
      MixedNext(a, os);
      MixedNext(a + b, os + ps);
      assert (a + b)[4..] == a[4..] + b && (a + b)[..4] == a[..4] && (os + ps)[1..] == os[1..] + ps;
    }
  }

  /** The bytes of words, each in its own order. */
  function UnpackMixed(ws: seq<Word>, os: seq<bool>): (s: seq<Byte>)
    requires |ws| == |os|
    ensures |s| == 4 * |ws|
  {
    if ws == [] then [] else Unpack(ws[0], os[0]) + UnpackMixed(ws[1..], os[1..])
  }

  lemma {:induction false} UnpackMixedWords(s: seq<Byte>, os: seq<bool>)
    requires |os| == |s| / 4
    ensures UnpackMixed(Mixed(s, os), os) == s[..|s| / 4 * 4]
  {
    hide Pack, Unpack;
    if |s| >= 4 {
      var ws := Mixed(s[4..], os[1..]);
      assert ([Pack(s[..4], os[0])] + ws)[1..] == ws;
      UnpackPack(s[..4], os[0]);
      UnpackMixedWords(s[4..], os[1..]);
      assert s[..|s| / 4 * 4] == s[..4] + s[4..][..|s[4..]| / 4 * 4];
    }
  }

  /** Unpacking the words of a byte string gives back its whole groups of four. */
  lemma {:induction false} UnpackWords(s: seq<Byte>, notToSwap: bool)
    ensures UnpackAll(Words(s, notToSwap), notToSwap) == s[..|s| / 4 * 4]
  {
    hide Pack, Unpack;
    if |s| >= 4 {
      var ws := Words(s[4..], notToSwap);
      assert ([Pack(s[..4], notToSwap)] + ws)[1..] == ws;
      UnpackPack(s[..4], notToSwap);
      UnpackWords(s[4..], notToSwap);
      assert s[..|s| / 4 * 4] == s[..4] + s[4..][..|s[4..]| / 4 * 4];
    }
  }

  lemma {:induction false} WordAt(s: seq<Byte>, notToSwap: bool, k: nat)
    requires 4 * k + 4 <= |s|
    ensures Words(s, notToSwap)[k] == Pack(s[4 * k..4 * k + 4], notToSwap)
  {
    hide Pack;
    if k > 0 {
      WordAt(s[4..], notToSwap, k - 1);
      SliceOfDrop(s, 4 * (k - 1));
    }
  }

  lemma SliceOfDrop(s: seq<Byte>, n: nat)
    requires n + 8 <= |s|
    ensures s[4..][n..n + 4] == s[n + 4..n + 8]
  {
  }
}
