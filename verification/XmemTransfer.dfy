/** Properties of the extended-memory path over whole transfers: no byte is lost through a buffer wrap, and the
    accepted pages are a prefix of the pages the host sends. */
module XmemTransfer {
  import opened HwicapWords
  import opened XmemPath

  /** A lap through the whole buffer has 32 pages, a whole number of words. */
  const PAGES_PER_WRAP: nat := 32

  /** The write pointer after `m` full pages from the origin `o`. */
  function Pos(o: nat, m: nat): (w: nat)
    requires o < WRAP_AT
    ensures w < WRAP_AT
  {
    if m == 0 then o else Wrapped(Pos(o, m - 1) + PAYLOAD_BYTES_PER_PAGE)
  }

  /** The number of pages after which the buffer wraps for the first time. */
  function FirstWrap(o: nat): (k: nat)
    requires o < WRAP_AT
    ensures 0 < k <= PAGES_PER_WRAP
  {
    (WRAP_AT - o + PAYLOAD_BYTES_PER_PAGE - 1) / PAYLOAD_BYTES_PER_PAGE
  }

  /** The first wrap of `m` pages from `o`, if there is one, comes after a whole number of words. */
  predicate Fits(o: nat, m: nat)
    requires o < WRAP_AT
  {
    m < FirstWrap(o) || FirstWrap(o) % 2 == 0
  }

  lemma FirstWrapIs(o: nat, m: nat)
    requires o < WRAP_AT
    ensures m < FirstWrap(o) <==> o + PAYLOAD_BYTES_PER_PAGE * m < WRAP_AT
  {
  }

  lemma {:induction false} PosIs(o: nat, m: nat)
    requires o < WRAP_AT
    ensures var k := FirstWrap(o);
            Pos(o, m) == if m < k then o + PAYLOAD_BYTES_PER_PAGE * m
                else PAYLOAD_BYTES_PER_PAGE * ((m - k) % PAGES_PER_WRAP)
  {
    hide FirstWrap;
    if m > 0 {
      PosIs(o, m - 1);
      FirstWrapIs(o, m);
      FirstWrapIs(o, m - 1);
      if m > FirstWrap(o) {
        NextPage32(m - 1 - FirstWrap(o));
      }
    }
  }

  lemma NextPage32(m: nat)
    ensures (m + 1) % PAGES_PER_WRAP == if m % PAGES_PER_WRAP == 31 then 0 else m % PAGES_PER_WRAP + 1
  {
  }

  lemma Lap31(m: nat)
    requires m % PAGES_PER_WRAP == 31
    ensures m % 2 == 1
  {
  }

  /** Every wrap of pages that fit comes after an even number of pages. */
  lemma WrapsEven(o: nat, m: nat)
    requires o < WRAP_AT && Fits(o, m + 1) && Pos(o, m) + PAYLOAD_BYTES_PER_PAGE >= WRAP_AT
    ensures m % 2 == 1
  {
    hide FirstWrap, Pos;
    var k := FirstWrap(o);
    PosIs(o, m);
    FirstWrapIs(o, m + 1);
    if m >= k {
      Lap31(m - k);
    }
  }

  /** The bytes that do not fill a word yet after `m` full pages. */
  function Left(m: nat): nat {
    if m % 2 == 0 then 0 else 2
  }

  lemma LeftIs(m: nat, n: nat)
    requires n == PAYLOAD_BYTES_PER_PAGE * m
    ensures n / 4 * 4 + Left(m) == n
  {
    var h := m / 2;
    if m % 2 == 0 {
      Quads(63 * h, 0, n);
    } else {
      Quads(63 * h + 31, 2, n);
    }
  }

  lemma Quads(q: nat, r: nat, n: nat)
    requires r < 4 && n == 4 * q + r
    ensures n / 4 * 4 + r == n
  {
  }

  /** After `m` full pages with the payload `s` from the origin `o`, its words packed in the orders `os`: every whole
      word is written, the rest is in the buffer. */
  ghost predicate Conserves(x: Path, s: seq<Byte>, os: seq<bool>, o: nat, m: nat) {
    && InBounds(x) && |s| == PAYLOAD_BYTES_PER_PAGE * m && |os| == |s| / 4 && o < WRAP_AT
    && x.write == Pos(o, m) && x.nextRead + Left(m) == x.write
    && x.hwicap == NoNewlines(Mixed(s, os))
    && x.buf[x.nextRead..x.write] == s[|s| / 4 * 4..]
  }

  /** The orders of the words of `s + t` when the words that `t` completes are packed in one order. */
  function MoreOrders(os: seq<bool>, s: nat, t: nat, notToSwap: bool): (r: seq<bool>)
    requires |os| == s / 4
    ensures |r| == (s + t) / 4
  {
    os + Uniform((s + t) / 4 - s / 4, notToSwap)
  }

  lemma DivTail(s: nat, t: nat)
    ensures var r := s - s / 4 * 4;
            && (s + t) / 4 == s / 4 + (r + t) / 4 && (s + t) / 4 * 4 == s / 4 * 4 + (r + t) / 4 * 4
  {
  }

  /** The words that `t` completes are those of the rest of `s` and `t`. */
  lemma MixedSplit(s: seq<Byte>, t: seq<Byte>, os: seq<bool>, notToSwap: bool)
    requires |os| == |s| / 4
    ensures var rest := s[|s| / 4 * 4..];
            && Mixed(s + t, MoreOrders(os, |s|, |t|, notToSwap)) == Mixed(s, os) + Words(rest + t, notToSwap)
            && (rest + t)[|rest + t| / 4 * 4..] == (s + t)[|s + t| / 4 * 4..]
  {
    hide Mixed, Words, Pack;
    var n := |s| / 4 * 4;
    var rest := s[n..];
    DivTail(|s|, |t|);
    MixedUniform(rest + t, notToSwap);
    MixedConcat(s[..n], rest + t, os, Uniform(|rest + t| / 4, notToSwap));
    MixedNone(rest);
    MixedConcat(s[..n], rest, os, []);
    assert s[..n] + rest == s && os + [] == os && Mixed(s[..n], os) + [] == Mixed(s[..n], os);
    assert s + t == s[..n] + (rest + t);
  }

  /** The bytes of an accepted page with the length `n`: a count of 127 reaches one byte beyond the payload. */
  function Bytes(p: Page, n: nat): (s: seq<Byte>)
    ensures |s| == if n <= PAYLOAD_BYTES_PER_PAGE then n else PAYLOAD_BYTES_PER_PAGE
  {
    if n <= PAYLOAD_BYTES_PER_PAGE then Payload(p)[..n] else Payload(p)
  }

  function Beyond(x: Path, n: nat): (s: seq<Byte>)
    requires InBounds(x)
    ensures |s| == if n <= PAYLOAD_BYTES_PER_PAGE then 0 else 1
  {
    if n <= PAYLOAD_BYTES_PER_PAGE then [] else [x.buf[x.write + PAYLOAD_BYTES_PER_PAGE]]
  }

  lemma CopiedPage(x: Path, p: Page, n: nat)
    requires InBounds(x) && n < 128
    requires Check(p, x.pageCnt).LastPage? || (Check(p, x.pageCnt).FullPage? && n == PAYLOAD_BYTES_PER_PAGE)
    ensures Copied(x, p, n) == x.(buf := x.buf[..x.write] + Payload(p) + x.buf[x.write + PAYLOAD_BYTES_PER_PAGE..],
                                  maxWrite := LastBefore(x.write, n), write := Wrapped(x.write + n),
                                      pageCnt := x.pageCnt + 1)
  {
    hide Check, Payload, Wrapped, LastBefore;
  }

  lemma OverlaySlice(b: seq<Byte>, w: nat, t: seq<Byte>, from: nat, n: nat)
    requires from <= w && w + |t| <= |b| && n <= |t|
    ensures (b[..w] + t + b[w + |t|..])[from..w + n] == b[from..w] + t[..n]
  {
  }

  lemma OverlayBeyond(b: seq<Byte>, w: nat, t: seq<Byte>, from: nat)
    requires from <= w && w + |t| < |b|
    ensures (b[..w] + t + b[w + |t|..])[from..w + |t| + 1] == b[from..w] + t + [b[w + |t|]]
  {
  }

  /** What an accepted page makes available: what was buffered, and its bytes. */
  lemma PageAvailable(x: Path, p: Page, n: nat)
    requires InBounds(x) && n < 128 && x.nextRead <= x.write && x.write + n > 0
    requires Check(p, x.pageCnt).LastPage? || (Check(p, x.pageCnt).FullPage? && n == PAYLOAD_BYTES_PER_PAGE)
    ensures var c := Copied(x, p, n);
            && c.hwicap == x.hwicap && c.nextRead == x.nextRead && c.write == Wrapped(x.write + n)
            && c.pageCnt == x.pageCnt + 1
            && c.buf[c.nextRead..x.write + n] == x.buf[x.nextRead..x.write] + Bytes(p, n) + Beyond(x, n)
            && Available(c) == if x.write + n >= 5 then c.buf[c.nextRead..x.write + n] else []
  {
    hide Check, Payload, Wrapped, Copied;
    CopiedPage(x, p, n);
    if n <= PAYLOAD_BYTES_PER_PAGE {
      OverlaySlice(x.buf, x.write, Payload(p), x.nextRead, n);
      assert x.buf[x.nextRead..x.write] + Bytes(p, n) + [] == x.buf[x.nextRead..x.write] + Bytes(p, n);
    } else {
      OverlayBeyond(x.buf, x.write, Payload(p), x.nextRead);
    }
  }

  lemma SliceTail(b: seq<Byte>, from: nat, n: nat)
    requires from + n <= |b|
    ensures b[from + n / 4 * 4..from + n] == b[from..from + n][n / 4 * 4..]
  {
  }

  lemma CopiedFullPage(x: Path, p: Page, n: nat)
    requires InBounds(x) && n < 128 && Check(p, x.pageCnt).FullPage?
    ensures Copied(x, p, n) == Copied(x, p, PAYLOAD_BYTES_PER_PAGE)
  {
    hide Check;
  }

  lemma WordCount(s: seq<Byte>, notToSwap: bool)
    ensures 4 * |Words(s, notToSwap)| == |s| / 4 * 4
  {
  }

  lemma AddQuads(a: nat, n: nat)
    requires a % 4 == 0
    ensures a + n / 4 * 4 == (a + n) / 4 * 4
  {
  }

  /** A full page after what was buffered: the words that leave, and the path afterwards. */
  lemma PageWritten(x: Path, p: Page, n: nat, notToSwap: bool)
    requires InBounds(x) && n < 128 && x.nextRead <= x.write && Check(p, x.pageCnt).FullPage?
    ensures var a := x.buf[x.nextRead..x.write] + Payload(p);
            var end := x.write + PAYLOAD_BYTES_PER_PAGE;
            var next := x.nextRead + |a| / 4 * 4;
            var y := Written(Copied(x, p, n), notToSwap);
            && y.hwicap == x.hwicap + NoNewlines(Words(a, notToSwap)) && y.pageCnt == x.pageCnt + 1
            && y.write == Wrapped(end) && y.nextRead == Wrapped(next)
            && next <= end && y.buf[next..end] == a[|a| / 4 * 4..]
  {
    hide Check, Words, NoNewlines, Payload, Available, Copied;
    CopiedFullPage(x, p, n);
    PageAvailable(x, p, PAYLOAD_BYTES_PER_PAGE);
    var c := Copied(x, p, PAYLOAD_BYTES_PER_PAGE);
    var a := x.buf[x.nextRead..x.write] + Payload(p);
    assert Payload(p)[..PAYLOAD_BYTES_PER_PAGE] == Payload(p) && a + [] == a;
    assert Available(c) == a;
    WordCount(a, notToSwap);
    SliceTail(c.buf, x.nextRead, |a|);
  }

  /** Where the pointers stand after one more page that fits. */
  lemma NextPointers(o: nat, m: nat)
    requires o < WRAP_AT && Fits(o, m + 1)
    ensures var end := Pos(o, m) + PAYLOAD_BYTES_PER_PAGE;
            && Wrapped(end) == Pos(o, m + 1) && (end >= WRAP_AT ==> Left(m + 1) == 0)
            && (Left(m) + PAYLOAD_BYTES_PER_PAGE) / 4 * 4 + Left(m + 1) == Left(m) + PAYLOAD_BYTES_PER_PAGE
  {
    hide FirstWrap;
    if Pos(o, m) + PAYLOAD_BYTES_PER_PAGE >= WRAP_AT {
      WrapsEven(o, m);
    }
  }

  /** Each full page that fits keeps the invariant, also the one that wraps both pointers. */
  lemma FullPageConserves(x: Path, s: seq<Byte>, os: seq<bool>, o: nat, m: nat, p: Page, n: nat, notToSwap: bool)
    requires Conserves(x, s, os, o, m) && Check(p, x.pageCnt).FullPage? && n < 128 && Fits(o, m + 1)
    ensures Conserves(Written(Copied(x, p, n), notToSwap), s + Payload(p),
                      MoreOrders(os, |s|, PAYLOAD_BYTES_PER_PAGE, notToSwap), o, m + 1)
    ensures Written(Copied(x, p, n), notToSwap).pageCnt == x.pageCnt + 1
  {
    PageWritten(x, p, n, notToSwap);
    NextPointers(o, m);
    hide Check, Words, Mixed, NoNewlines, Payload, Copied, Pos, Fits, Written;
    var t := Payload(p);
    MixedSplit(s, t, os, notToSwap);
    NoNewlinesConcat(Mixed(s, os), Words(s[|s| / 4 * 4..] + t, notToSwap));
    LeftIs(m, |s|);
  }

  /** The words of the last page: those of the rest and its bytes, or none if it puts exactly four into a fresh
      buffer. */
  lemma LastWords(x: Path, o: nat, m: nat, p: Page, n: nat, notToSwap: bool)
    requires InBounds(x) && n < 128 && x.write + n > 0 && Check(p, x.pageCnt).LastPage?
    requires o < WRAP_AT && x.write == Pos(o, m) && x.nextRead + Left(m) == x.write
    ensures var all := x.buf[x.nextRead..x.write] + Bytes(p, n);
            Words(Available(Copied(x, p, n)), notToSwap)
            == if x.write == 0 && n == 4 then [] else Words(all, notToSwap)
  {
    hide Check, Words, Payload, Copied, Pos, Available, Bytes, Beyond;
    PageAvailable(x, p, n);
    LowPointer(o, m);
    var all := x.buf[x.nextRead..x.write] + Bytes(p, n);
    if x.write + n >= 5 {
      PageWords(all, Beyond(x, n), m, notToSwap);
    } else {
      NoWord([], notToSwap);
      if n < 4 {
        NoWord(all, notToSwap);
      }
    }
  }

  /** The byte beyond a full page does not complete a word. */
  lemma PageWords(all: seq<Byte>, beyond: seq<Byte>, m: nat, notToSwap: bool)
    requires beyond == [] || (|beyond| == 1 && |all| == Left(m) + PAYLOAD_BYTES_PER_PAGE)
    ensures Words(all + beyond, notToSwap) == Words(all, notToSwap)
  {
    hide Words;
    if beyond == [] {
      assert all + beyond == all;
    } else {
      EvenTail(Left(m) + PAYLOAD_BYTES_PER_PAGE);
      WithoutBeyond(all, beyond, notToSwap);
    }
  }

  lemma NoWord(s: seq<Byte>, notToSwap: bool)
    requires |s| < 4
    ensures Words(s, notToSwap) == []
  {
  }

  lemma EvenTail(k: nat)
    requires k % 2 == 0
    ensures k / 4 * 4 <= k < k + 1 < k / 4 * 4 + 4
  {
  }

  /** A write pointer below five that is not zero holds no unwritten byte. */
  lemma LowPointer(o: nat, m: nat)
    requires o < WRAP_AT
    ensures 0 < Pos(o, m) < 5 ==> m == 0
  {
    hide FirstWrap;
    PosIs(o, m);
  }

  /** One byte that does not complete a word. */
  lemma WithoutBeyond(s: seq<Byte>, t: seq<Byte>, notToSwap: bool)
    requires |s + t| < |s| / 4 * 4 + 4
    ensures Words(s + t, notToSwap) == Words(s, notToSwap)
  {
    hide Words;
    var n := |s| / 4 * 4;
    assert (s + t)[..n] == s[..n];
    WordsPrefix(s + t, n, notToSwap);
    WordsPrefix(s, n, notToSwap);
  }

  /** The last page, with any 7-bit count `n` that leaves the end pointer in the buffer: every whole word of the
      transfer is written, unless the page starts a fresh buffer with exactly four bytes that are not a newline
      pattern. */
  lemma LastPageWrites(x: Path, s: seq<Byte>, os: seq<bool>, o: nat, m: nat, p: Page, n: nat, notToSwap: bool)
    requires Conserves(x, s, os, o, m) && Check(p, x.pageCnt).LastPage? && n < 128 && x.write + n > 0
    ensures var t := Bytes(p, n);
            Written(Copied(x, p, n), notToSwap).hwicap == NoNewlines(Mixed(s + t, MoreOrders(os, |s|, |t|, notToSwap)))
            <==> !(x.write == 0 && n == 4 && !IsNewline(Pack(Payload(p)[..4], notToSwap)))
  {
    LastWords(x, o, m, p, n, notToSwap);
    CopiedKeepsWords(x, p, n);
    LeftIs(m, |s|);
    hide Check, Words, Mixed, NoNewlines, Payload, Available, Pack, IsNewline, Copied, Pos;
    var t, rest := Bytes(p, n), s[|s| / 4 * 4..];
    MixedSplit(s, t, os, notToSwap);
    NoNewlinesConcat(Mixed(s, os), Words(rest + t, notToSwap));
    NoWords(notToSwap);
    if x.write == 0 && n == 4 {
      assert rest == [] && rest + t == t;
      OneWord(t, notToSwap);
      OneWordKept(Pack(t, notToSwap));
    }
  }

  lemma CopiedKeepsWords(x: Path, p: Page, n: nat)
    requires InBounds(x) && n < 128
    ensures Copied(x, p, n).hwicap == x.hwicap
  {
  }

  lemma OneWordKept(w: Word)
    ensures NoNewlines([w]) == if IsNewline(w) then [] else [w]
  {
    assert [w][..0] == [];
  }

  /** The words written, each unpacked in its order, and the bytes still in the buffer are the accepted payload, byte
      for byte, if and only if no aligned word of it has a newline pattern. */
  lemma BytesConserved(x: Path, s: seq<Byte>, os: seq<bool>, o: nat, m: nat)
    requires Conserves(x, s, os, o, m)
    ensures |x.hwicap| == |os| && UnpackMixed(x.hwicap, os) + x.buf[x.nextRead..x.write] == s <==> Plain(Mixed(s, os))
  {
    hide Mixed, UnpackMixed, Plain, Pos;
    AllKept(Mixed(s, os));
    UnpackMixedWords(s, os);
    assert s == s[..|s| / 4 * 4] + s[|s| / 4 * 4..];
  }

  ghost predicate Plain(ws: seq<Word>) {
    forall k | 0 <= k < |ws| :: !IsNewline(ws[k])
  }

  lemma PlainInit(ws: seq<Word>)
    requires ws != []
    ensures Plain(ws) <==> Plain(ws[..|ws| - 1]) && !IsNewline(ws[|ws| - 1])
  {
    hide IsNewline;
    var n := |ws| - 1;
    if Plain(ws[..n]) && !IsNewline(ws[n]) {
      forall k | 0 <= k < |ws|
        ensures !IsNewline(ws[k])
      {
        assert k < n ==> ws[k] == ws[..n][k];
      }
    }
  }

  lemma {:induction false} AllKept(ws: seq<Word>)
    ensures |NoNewlines(ws)| <= |ws|
    ensures |NoNewlines(ws)| == |ws| <==> Plain(ws)
    ensures |NoNewlines(ws)| == |ws| ==> NoNewlines(ws) == ws
  {
    hide IsNewline;
    if ws != [] {
      hide Plain;
      var n := |ws| - 1;
      AllKept(ws[..n]);
      PlainInit(ws);
      assert ws == ws[..n] + [ws[n]];
    }
  }

  /** The page number as the sender encodes it. */
  function Count(k: nat): bv4 {
    if k == 0 then 0 else Count(k - 1) + 1
  }

  /** The host writes page `k` line by line into a memory that first held the page `stale`. */
  datatype Host = Host(pages: seq<Page>, stale: Page, k: nat, lines: nat, mem: Page, pageCnt: bv4, accepted: seq<Page>,
                       failed: bool)

  datatype Event = WriteLine | NextPage | Poll

  function Replace(p: Page, i: nat, w: Word): (r: Page)
    requires i < LINES_PER_PAGE
  {
    p[i := w]
  }

  /** The host moves on to page `k + 1` only after page `k` is accepted; polls see the memory as it is. */
  function Next(h: Host, e: Event): Host {
    match e
    case WriteLine =>
      if h.k < |h.pages| && h.lines < LINES_PER_PAGE then
        h.(mem := Replace(h.mem, h.lines, h.pages[h.k][h.lines]), lines := h.lines + 1)
      else h
    case NextPage =>
      if h.k < |h.pages| && h.lines == LINES_PER_PAGE && |h.accepted| > h.k then h.(k := h.k + 1, lines := 0) else h
    case Poll =>
      match Check(h.mem, h.pageCnt) {
        case LastPage => h.(accepted := h.accepted + [h.mem], pageCnt := h.pageCnt + 1)
        case FullPage => h.(accepted := h.accepted + [h.mem], pageCnt := h.pageCnt + 1)
        case Mismatch => h.(failed := true)
        case _ => h
      }
  }

  function Run(h: Host, events: seq<Event>): Host {
    if events == [] then h else Next(Run(h, events[..|events| - 1]), events[|events| - 1])
  }

  /** Header and footer of page `k` agree and carry its number. */
  ghost predicate Numbered(pages: seq<Page>) {
    forall k | 0 <= k < |pages| :: Header(pages[k]) == Footer(pages[k]) && Counter(Header(pages[k])) == Count(k)
  }

  /** The page in memory before the host started page `k`. */
  function Previous(pages: seq<Page>, stale: Page, k: nat): Page
    requires k <= |pages|
  {
    if k == 0 then stale else pages[k - 1]
  }

  function Start(pages: seq<Page>, stale: Page): Host {
    Host(pages, stale, 0, 0, stale, 0xf, [], false)
  }

  ghost predicate HostInv(h: Host) {
    && Numbered(h.pages) && Counter(Footer(h.stale)) != 0
    && h.k <= |h.pages| && h.lines <= LINES_PER_PAGE && (h.k == |h.pages| ==> h.lines == 0)
    && (|h.accepted| == h.k || (|h.accepted| == h.k + 1 && h.lines == LINES_PER_PAGE))
    && h.accepted == h.pages[..|h.accepted|] && h.pageCnt + 1 == Count(|h.accepted|)
    && (forall i | 0 <= i < LINES_PER_PAGE ::
          h.mem[i] == if i < h.lines then h.pages[h.k][i] else Previous(h.pages, h.stale, h.k)[i])
    && (h.failed ==> Header(h.stale) == Footer(h.stale) && Counter(Header(h.stale)) != 0xf)
  }

  lemma HeaderIsLine0(p: Page)
    ensures Header(p) == Unpack(p[0], true)[0] && Footer(p) == Unpack(p[31], true)[3]
  {
    hide Unpack, UnpackAll;
    LineBytes(p, 0);
    LineBytes(p, 31);
  }

  /** What a poll sees: nothing new, a page in transfer, or the whole page. */
  lemma PollSees(h: Host)
    requires HostInv(h)
    ensures var old_ := Previous(h.pages, h.stale, h.k);
            if h.lines == 0 then h.mem == old_
            else if h.lines == LINES_PER_PAGE then h.k < |h.pages| && h.mem == h.pages[h.k]
            else h.k < |h.pages| && Header(h.mem) == Header(h.pages[h.k]) && Footer(h.mem) == Footer(old_)
  {
    HeaderIsLine0(h.mem);
    HeaderIsLine0(Previous(h.pages, h.stale, h.k));
    if h.k < |h.pages| {
      HeaderIsLine0(h.pages[h.k]);
    }
  }

  lemma CountStep(k: nat)
    ensures Count(k + 1) == Count(k) + 1 && Count(k + 1) != Count(k)
  {
  }

  lemma PollKeeps(h: Host)
    requires HostInv(h)
    ensures HostInv(Next(h, Poll))
  {
    hide Header, Footer, Counter, MarksLast, Count, PageBytes;
    PollSees(h);
    var a := |h.accepted|;
    CountStep(a);
    CountStep(h.k);
    if h.k > 0 {
      CountStep(h.k - 1);
    }
    CountZero();
    if h.lines == LINES_PER_PAGE && a == h.k {
      assert h.pages[..a + 1] == h.pages[..a] + [h.pages[a]];
    }
  }

  lemma CountZero()
    ensures Count(0) == 0
  {
  }

  lemma StepKeeps(h: Host, e: Event)
    requires HostInv(h)
    ensures HostInv(Next(h, e)) && Next(h, e).pages == h.pages && Next(h, e).stale == h.stale
  {
    hide Header, Footer, Counter, MarksLast, Count, PageBytes;
    if e.Poll? {
      PollKeeps(h);
    }
  }

  /** Over every schedule of writes and polls, the accepted pages are whole and a prefix of the pages sent, each
      accepted once; the counter mismatch of a poll can only come from the page that was in memory at
      the start. */
  lemma {:induction false} AcceptedIsPrefix(pages: seq<Page>, stale: Page, events: seq<Event>)
    requires Numbered(pages) && Counter(Footer(stale)) != 0
    ensures var h := Run(Start(pages, stale), events);
            && HostInv(h) && h.pages == pages && h.stale == stale
            && h.accepted <= pages
            && (h.failed ==> Header(stale) == Footer(stale) && Counter(Header(stale)) != 0xf)
  {
    hide Next, HostInv, Start;
    if events == [] {
      StartKeeps(pages, stale);
    } else {
      var init := events[..|events| - 1];
      AcceptedIsPrefix(pages, stale, init);
      StepKeeps(Run(Start(pages, stale), init), events[|events| - 1]);
    }
    InvMeans(Run(Start(pages, stale), events));
  }

  lemma StartKeeps(pages: seq<Page>, stale: Page)
    requires Numbered(pages) && Counter(Footer(stale)) != 0
    ensures var h := Start(pages, stale); HostInv(h) && h.pages == pages && h.stale == stale
  {
    hide Header, Footer, Counter;
    CountZero();
  }

  lemma InvMeans(h: Host)
    requires HostInv(h)
    ensures h.accepted <= h.pages
    ensures h.failed ==> Header(h.stale) == Footer(h.stale) && Counter(Header(h.stale)) != 0xf
  {
  }

  /** A poll of the schedule sees the memory before the host has written any line. */
  ghost predicate PolledUntouched(pages: seq<Page>, events: seq<Event>) {
    events != [] && (PolledUntouched(pages, events[..|events| - 1])
                     || (events[|events| - 1].Poll? && (pages == [] || WriteLine !in events)))
  }

  /** The page in memory at the start has equal header and footer, with a count other than 15. */
  ghost predicate StaleMismatch(stale: Page) {
    Header(stale) == Footer(stale) && Counter(Header(stale)) != 0xf
  }

  /** The host has written nothing yet. */
  ghost predicate Untouched(h: Host) {
    h.k == 0 && h.lines == 0 && h.accepted == []
  }

  lemma FailStep(h: Host, e: Event)
    requires HostInv(h)
    ensures var r := Next(h, e);
            && (r.failed <==> h.failed || (e.Poll? && Untouched(h) && StaleMismatch(h.stale)))
            && (Untouched(r) <==> Untouched(h) && (!e.WriteLine? || h.pages == []))
  {
    hide Header, Footer, Counter, MarksLast, Count, PageBytes;
    PollSees(h);
    var a := |h.accepted|;
    CountStep(a);
    CountStep(h.k);
    if h.k > 0 {
      CountStep(h.k - 1);
    }
    CountZero();
  }

  /** Over every schedule: a poll fails with a counter mismatch if and only if one sees the memory before the host has
      written any line, and the page left there has equal header and footer with a count other than 15. */
  lemma {:induction false} FailsIff(pages: seq<Page>, stale: Page, events: seq<Event>)
    requires Numbered(pages) && Counter(Footer(stale)) != 0
    ensures var h := Run(Start(pages, stale), events);
            && (h.failed <==> PolledUntouched(pages, events) && StaleMismatch(stale))
            && (Untouched(h) <==> pages == [] || WriteLine !in events)
  {
    hide Next, HostInv, StaleMismatch, Untouched, Numbered, Counter, Footer, Header;
    if events == [] {
      StartUntouched(pages, stale);
    } else {
      var init, e := events[..|events| - 1], events[|events| - 1];
      assert events == init + [e];
      FailsIff(pages, stale, init);
      AcceptedIsPrefix(pages, stale, init);
      FailStep(Run(Start(pages, stale), init), e);
    }
  }

  lemma StartUntouched(pages: seq<Page>, stale: Page)
    ensures var h := Start(pages, stale); Untouched(h) && !h.failed
  {
  }

  /** A poll whose 32 reads interleave with the writes of a page: line `i` is read after `progress[i]` lines of
      the new page are written. */
  function Snapshot(before: Page, after: Page, progress: seq<nat>): (s: Page)
    requires |progress| == LINES_PER_PAGE
    ensures forall i | 0 <= i < LINES_PER_PAGE :: s[i] == if progress[i] > i then after[i] else before[i]
  {
    seq(LINES_PER_PAGE, i requires 0 <= i < LINES_PER_PAGE => if progress[i] > i then after[i] else before[i])
  }

  /** Such a poll judges the page by its first and last line alone: it accepts what it read as the new page, and
      what it read is the new page if and only if no line that changed was read too early. */
  lemma InterleavedPoll(before: Page, after: Page, progress: seq<nat>, pageCnt: bv4)
    requires |progress| == LINES_PER_PAGE && progress[0] > 0 && progress[31] > 31
    ensures var s := Snapshot(before, after, progress);
            && Check(s, pageCnt) == Check(after, pageCnt)
            && (s == after <==> forall i | 0 <= i < LINES_PER_PAGE :: progress[i] > i || before[i] == after[i])
  {
    hide PageBytes, Unpack, Counter, MarksLast;
    var s := Snapshot(before, after, progress);
    HeaderIsLine0(s);
    HeaderIsLine0(after);
    if forall i | 0 <= i < LINES_PER_PAGE :: progress[i] > i || before[i] == after[i] {
      assert s == after;
    } else {
      var i :| 0 <= i < LINES_PER_PAGE && !(progress[i] > i || before[i] == after[i]);
      assert s[i] != after[i];
    }
  }

  /** A poll that is overtaken by the host after its first line accepts a torn page. */
  lemma TornPageAccepted(before: Page, after: Page, pageCnt: bv4)
    requires before[5] != after[5]
    ensures var progress :=
            [1, 1, 1, 1, 1, 1, 1, 1, 1, 1, 1, 1, 1, 1, 1, 1, 1, 1, 1, 1, 1, 1, 1, 1, 1, 1, 1, 1, 1, 1, 1, 32];
            var s := Snapshot(before, after, progress);
            Check(s, pageCnt) == Check(after, pageCnt) && s != after
  {
    hide Check;
    var progress: seq<nat> :=
        [1, 1, 1, 1, 1, 1, 1, 1, 1, 1, 1, 1, 1, 1, 1, 1, 1, 1, 1, 1, 1, 1, 1, 1, 1, 1, 1, 1, 1, 1, 1, 32];
    InterleavedPoll(before, after, progress, pageCnt);
    assert Snapshot(before, after, progress)[5] == before[5];
  }
}
