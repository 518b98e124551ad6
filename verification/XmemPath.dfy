/** The extended-memory path of the FPGA Management Core: pages of 126 payload bytes between a header and a footer
    byte are copied into a wrapping buffer, which is written to the HWICAP word by word. */
module XmemPath {
  import opened HwicapWords

  const LINES_PER_PAGE: nat := 32
  const PAYLOAD_BYTES_PER_PAGE: nat := 126
  const WRAP_AT: nat := IN_BUFFER_SIZE - PAYLOAD_BYTES_PER_PAGE

  type Page = p: seq<Word> | |p| == LINES_PER_PAGE
    witness [0, 0, 0, 0, 0, 0, 0, 0, 0, 0, 0, 0, 0, 0, 0, 0, 0, 0, 0, 0, 0, 0, 0, 0, 0, 0, 0, 0, 0, 0, 0, 0]

  /** The bytes of a page; lines are little-endian. */
  function PageBytes(p: Page): (s: seq<Byte>)
    ensures |s| == 128
  {
    UnpackAll(p, true)
  }

  function Header(p: Page): Byte {
    PageBytes(p)[0]
  }

  function Footer(p: Page): Byte {
    PageBytes(p)[127]
  }

  function Payload(p: Page): (s: seq<Byte>)
    ensures |s| == PAYLOAD_BYTES_PER_PAGE
  {
    PageBytes(p)[1..127]
  }

  lemma {:induction false} UnpackAllAt(ws: seq<Word>, notToSwap: bool, k: nat)
    requires k < |ws|
    ensures UnpackAll(ws, notToSwap)[4 * k..4 * k + 4] == Unpack(ws[k], notToSwap)
  {
    hide Unpack;
    if k > 0 {
      UnpackAllAt(ws[1..], notToSwap, k - 1);
      var s, t := UnpackAll(ws, notToSwap), UnpackAll(ws[1..], notToSwap);
      assert s[4..] == t;
      assert s[4 * k..4 * k + 4] == t[4 * (k - 1)..4 * (k - 1) + 4];
    }
  }

  /** The low four bits of a header count pages; the high four mark the last page. */
  function Counter(b: Byte): bv4 {
    (b & 0x0f) as bv4
  }

  predicate MarksLast(b: Byte) {
    b & 0xf0 == 0xf0
  }

  /** The result of `copyAndCheckBurst`. */
  datatype Burst = UpToDate | InTransfer | Mismatch | LastPage | FullPage

  /** A page is accepted when header and footer agree and carry the next count. */
  function Check(p: Page, pageCnt: bv4): Burst {
    var h := Header(p);
    if h != Footer(p) then InTransfer
    else if Counter(h) == pageCnt then UpToDate
    else if Counter(h) != pageCnt + 1 then Mismatch
    else if MarksLast(h) then LastPage
    else FullPage
  }

  /** The verdict from the page's first and last line: the header is the lowest byte of the one, the footer the highest
      of the other. */
  lemma CheckReads(p: Page, pageCnt: bv4)
    ensures var h, f, c := p[0] & 0xFF, p[31] >> 24, pageCnt as Word;
            var r := Check(p, pageCnt);
            && (r.InTransfer? <==> h != f)
            && (r.UpToDate? <==> h == f && h & 0xF == c)
            && (r.Mismatch? <==> h == f && h & 0xF != c && h & 0xF != (c + 1) & 0xF)
            && (r.LastPage? <==> h == f && h & 0xF == (c + 1) & 0xF && h >> 4 == 0xF)
            && (r.FullPage? <==> h == f && h & 0xF == (c + 1) & 0xF && h >> 4 != 0xF)
  {
    LineBytes(p, 0);
    LineBytes(p, 31);
    hide UnpackAll, PageBytes;
    ByteVerdict(p[0], p[31], pageCnt);
  }

  lemma ByteVerdict(x: Word, y: Word, c: bv4)
    ensures var h, f := Unpack(x, true)[0], Unpack(y, true)[3];
            && (h == f <==> x & 0xFF == y >> 24)
            && (Counter(h) == c <==> (x & 0xFF) & 0xF == c as Word)
            && (Counter(h) == c + 1 <==> (x & 0xFF) & 0xF == (c as Word + 1) & 0xF)
            && (MarksLast(h) <==> (x & 0xFF) >> 4 == 0xF)
  {
  }

  datatype Path = Path(buf: seq<Byte>, write: nat, nextRead: nat, maxWrite: nat, pageCnt: bv4, hwicap: seq<Word>)

  ghost predicate InBounds(x: Path) {
    && |x.buf| == IN_BUFFER_SIZE && x.write < WRAP_AT
    && x.nextRead < WRAP_AT && x.nextRead % 4 == 0
  }

  function Wrapped(n: nat): (r: nat)
    ensures r < WRAP_AT
  {
    if n >= WRAP_AT then 0 else n
  }

  /** How many payload bytes an accepted page carries. */
  function PageLen(b: Burst, lastPageCnt: nat): nat {
    if b.LastPage? then lastPageCnt else PAYLOAD_BYTES_PER_PAGE
  }

  /** The end pointer before `n` bytes from `w` on, in 32 bits: it wraps if there is no byte before. */
  function LastBefore(w: nat, n: nat): nat {
    if w + n == 0 then 0xFFFF_FFFF else w + n - 1
  }

  /** Copying a page; the pointers and the counter move only if it is accepted. `lastPageCnt` has 7 bits. */
  function Copied(x: Path, p: Page, lastPageCnt: nat): (r: Path)
    requires InBounds(x) && lastPageCnt < 128
    ensures InBounds(r)
  {
    var y := x.(buf := x.buf[..x.write] + Payload(p) + x.buf[x.write + PAYLOAD_BYTES_PER_PAGE..]);
    var b := Check(p, x.pageCnt);
    if b.LastPage? || b.FullPage? then
      var end := x.write + PageLen(b, lastPageCnt);
      y.(maxWrite := LastBefore(x.write, PageLen(b, lastPageCnt)), write := Wrapped(end), pageCnt := x.pageCnt + 1)
    else y
  }

  /** Words with the newline patterns are counted as errors and not written. */
  function NoNewlines(ws: seq<Word>): seq<Word> {
    if ws == [] then [] else
      var w := ws[|ws| - 1];
      NoNewlines(ws[..|ws| - 1]) + if IsNewline(w) then [] else [w]
  }

  /** The bytes available to the HWICAP loop. A buffer filled to less than five bytes has none. With an end pointer
      outside the buffer, the loop is not defined; no call of it meets one. */
  function Available(x: Path): (s: seq<Byte>)
    requires InBounds(x)
  {
    if x.maxWrite >= 4 && x.nextRead <= x.maxWrite < IN_BUFFER_SIZE then x.buf[x.nextRead..x.maxWrite + 1] else []
  }

  function Written(x: Path, notToSwap: bool): (r: Path)
    requires InBounds(x)
    ensures InBounds(r)
  {
    var ws := Words(Available(x), notToSwap);
    x.(hwicap := x.hwicap + NoNewlines(ws),
       nextRead := if x.nextRead + 4 * |ws| >= WRAP_AT then 0 else x.nextRead + 4 * |ws|)
  }

  lemma {:induction false} NoNewlinesConcat(a: seq<Word>, b: seq<Word>)
    ensures NoNewlines(a + b) == NoNewlines(a) + NoNewlines(b)
  {
    if b == [] {
      assert a + b == a;
    } else {
      var n := |b| - 1;
      NoNewlinesConcat(a, b[..n]);
      assert (a + b)[..|a + b| - 1] == a + b[..n];
    }
  }

  class XmemBuffer {
    const bufferIn: array<Byte>
    var bufferInPtrWrite: nat
    var bufferInPtrNextRead: nat
    var bufferInPtrMaxWrite: nat
    var pageCnt: bv4
    var hwicap: seq<Word>
    var writeErrCnt: nat

    ghost function View(): Path
      reads this, bufferIn
    {
      Path(bufferIn[..], bufferInPtrWrite, bufferInPtrNextRead, bufferInPtrMaxWrite, pageCnt, hwicap)
    }

    ghost predicate Valid()
      reads this, bufferIn
    {
      InBounds(View())
    }

    constructor ()
      ensures Valid() && fresh(bufferIn)
      ensures pageCnt == 0xf && hwicap == [] && bufferInPtrWrite == bufferInPtrNextRead == bufferInPtrMaxWrite == 0
    {
      bufferIn := new Byte[IN_BUFFER_SIZE](_ => 0);
      bufferInPtrWrite, bufferInPtrNextRead, bufferInPtrMaxWrite := 0, 0, 0;
      pageCnt, hwicap, writeErrCnt := 0xf, [], 0;
    }

    /** `emptyInBuffer`, as far as this path uses it. */
    method Clear()
      requires Valid()
      modifies bufferIn, this`bufferInPtrWrite, this`bufferInPtrNextRead, this`bufferInPtrMaxWrite
      ensures Valid() && bufferInPtrWrite == bufferInPtrNextRead == bufferInPtrMaxWrite == 0
      ensures forall j | 0 <= j < IN_BUFFER_SIZE :: bufferIn[j] == 0
    {
      for i := 0 to IN_BUFFER_SIZE
        invariant forall j | 0 <= j < i :: bufferIn[j] == 0
      {
        bufferIn[i] := 0;
      }
      bufferInPtrWrite, bufferInPtrNextRead, bufferInPtrMaxWrite := 0, 0, 0;
    }

    /** One byte of the copy loop. */
    method PutByte(offset: nat, b: Byte, ghost before: seq<Byte>, ghost bytes: seq<Byte>)
      requires bufferIn.Length == |before| == IN_BUFFER_SIZE && bufferInPtrWrite < WRAP_AT
      requires |bytes| == 128 && offset < PAYLOAD_BYTES_PER_PAGE && b == bytes[offset + 1]
      requires bufferIn[..] == Overlaid(before, bufferInPtrWrite, bytes, offset)
      modifies bufferIn
      ensures bufferIn[..] == Overlaid(before, bufferInPtrWrite, bytes, offset + 1)
    {
      bufferIn[bufferInPtrWrite + offset] := b;
    }

    /** The copy loop of `copyAndCheckBurst`. */
    method CopyLines(xmem: Page) returns (curHeader: Byte, curFooter: Byte)
      requires Valid()
      modifies bufferIn
      ensures curHeader == Header(xmem) && curFooter == Footer(xmem)
      ensures bufferIn[..] == Overlaid(old(bufferIn[..]), bufferInPtrWrite, PageBytes(xmem), PAYLOAD_BYTES_PER_PAGE)
    {
      hide PageBytes, Unpack, Overlaid;
      curHeader, curFooter := 0, 0;
      var buffPointer := -1;
      ghost var before, bytes := bufferIn[..], PageBytes(xmem);
      NothingOverlaid(before, bufferInPtrWrite, bytes);
      for i := 0 to LINES_PER_PAGE
        invariant buffPointer == if i == 0 then -1 else if i == LINES_PER_PAGE then 125 else 4 * i - 2
        invariant bufferIn[..] == Overlaid(before, bufferInPtrWrite, bytes, buffPointer + 1)
        invariant (i > 0 ==> curHeader == bytes[0]) && (i == LINES_PER_PAGE ==> curFooter == bytes[127])
      {
        var line := Unpack(xmem[i], true);
        LineBytes(xmem, i);
        if i == 0 {
          curHeader := line[0];
        } else {
          buffPointer := buffPointer + 1;
          PutByte(buffPointer, line[0], before, bytes);
        }
        buffPointer := buffPointer + 1;
        PutByte(buffPointer, line[1], before, bytes);
        buffPointer := buffPointer + 1;
        PutByte(buffPointer, line[2], before, bytes);
        if i == LINES_PER_PAGE - 1 {
          curFooter := line[3];
        } else {
          buffPointer := buffPointer + 1;
          PutByte(buffPointer, line[3], before, bytes);
        }
      }
    }

    /** The pointers after an accepted page, with the 32-bit arithmetic of the source. */
    method AdvancePointers(lastPage: bool, lastPageCnt: nat)
      requires bufferInPtrWrite < WRAP_AT && lastPageCnt < 128
      modifies this`bufferInPtrWrite, this`bufferInPtrMaxWrite
      ensures var n := if lastPage then lastPageCnt else PAYLOAD_BYTES_PER_PAGE;
              && bufferInPtrMaxWrite == LastBefore(old(bufferInPtrWrite), n)
              && bufferInPtrWrite == Wrapped(old(bufferInPtrWrite) + n)
    {
      if lastPage {
        bufferInPtrWrite := (bufferInPtrWrite + (lastPageCnt - 1)) % 0x1_0000_0000;
      } else {
        bufferInPtrWrite := bufferInPtrWrite + 125;
      }
      bufferInPtrMaxWrite := bufferInPtrWrite;
      bufferInPtrWrite := (bufferInPtrWrite + 1) % 0x1_0000_0000;
      if bufferInPtrWrite >= IN_BUFFER_SIZE - PAYLOAD_BYTES_PER_PAGE {
        bufferInPtrWrite := 0;
      }
    }

    /** `copyAndCheckBurst` as called by `OP_XMEM_COPY_DATA`, which also advances the page counter. */
    method CopyAndCheckBurst(xmem: Page, lastPageCnt: nat) returns (r: Burst)
      requires Valid() && lastPageCnt < 128
      modifies bufferIn, this`bufferInPtrWrite, this`bufferInPtrMaxWrite, this`pageCnt
      ensures Valid() && r == Check(xmem, old(pageCnt))
      ensures View() == Copied(old(View()), xmem, lastPageCnt)
    {
      hide PageBytes, Counter, MarksLast, Header, Footer;
      var expCnt := if pageCnt == 0xf then 0 else pageCnt + 1;
      assert expCnt == pageCnt + 1;
      var curHeader, curFooter := CopyLines(xmem);
      if curHeader != curFooter {
        return InTransfer;
      }
      if Counter(curHeader) == pageCnt {
        return UpToDate;
      }
      if Counter(curHeader) != expCnt {
        return Mismatch;
      }
      var lastPage := MarksLast(curHeader);
      AdvancePointers(lastPage, lastPageCnt);
      pageCnt := expCnt;
      r := if lastPage then LastPage else FullPage;
    }

    /** The word loop of `OP_BUFFER_TO_HWICAP` in the mode without HTTP. */
    method WriteBuffer(notToSwap: bool)
      requires Valid() && bufferInPtrMaxWrite < IN_BUFFER_SIZE
      modifies this`bufferInPtrNextRead, this`hwicap, this`writeErrCnt
      ensures Valid() && View() == Written(old(View()), notToSwap)
    {
      hide Pack, IsNewline, Words, Available, NoNewlines;
      ghost var x := View();
      ghost var s := Available(x);
      AvailableLength(x);
      var maxPayloadWrite := if bufferInPtrMaxWrite >= 4 then bufferInPtrMaxWrite - 3 else 0;
      var i := bufferInPtrNextRead;
      NoWords(notToSwap);
      assert s[..0] == [];
      while i <= maxPayloadWrite && maxPayloadWrite > 0
        invariant x.nextRead <= i && (i - x.nextRead) % 4 == 0 && i - x.nextRead <= |s|
        invariant i == x.nextRead || i <= bufferInPtrMaxWrite + 1
        invariant hwicap == x.hwicap + NoNewlines(Words(s[..i - x.nextRead], notToSwap))
        invariant x == View().(hwicap := x.hwicap)
        decreases maxPayloadWrite + 4 - i
      {
        var tmp := Pack([bufferIn[i], bufferIn[i + 1], bufferIn[i + 2], bufferIn[i + 3]], notToSwap);
        NextWord(s, i - x.nextRead, notToSwap);
        AvailableAt(x, i);
        i := i + 4;
        if IsNewline(tmp) {
          writeErrCnt := writeErrCnt + 1;
        } else {
          hwicap := hwicap + [tmp];
        }
      }
      WordsPrefix(s, i - x.nextRead, notToSwap);
      bufferInPtrNextRead := i;
      if bufferInPtrNextRead >= IN_BUFFER_SIZE - PAYLOAD_BYTES_PER_PAGE {
        bufferInPtrNextRead := 0;
      }
    }
  }

  /** `before` with the first `n` payload bytes of a page at offset `w`. */
  ghost function Overlaid(before: seq<Byte>, w: nat, bytes: seq<Byte>, n: nat): seq<Byte>
    requires |bytes| == 128 && n <= PAYLOAD_BYTES_PER_PAGE && w + n <= |before|
  {
    before[..w] + bytes[1..1 + n] + before[w + n..]
  }

  lemma NothingOverlaid(before: seq<Byte>, w: nat, bytes: seq<Byte>)
    requires |bytes| == 128 && w <= |before|
    ensures Overlaid(before, w, bytes, 0) == before
  {
  }

  lemma LineBytes(p: Page, i: nat)
    requires i < LINES_PER_PAGE
    ensures var line, bytes := Unpack(p[i], true), PageBytes(p);
            && line[0] == bytes[4 * i] && line[1] == bytes[4 * i + 1]
            && line[2] == bytes[4 * i + 2] && line[3] == bytes[4 * i + 3]
  {
    hide Unpack, UnpackAll;
    UnpackAllAt(p, true, i);
    var line, bytes := Unpack(p[i], true), UnpackAll(p, true);
    assert line == bytes[4 * i..4 * i + 4];
  }

  lemma AvailableLength(x: Path)
    requires InBounds(x) && x.maxWrite < IN_BUFFER_SIZE
    ensures |Available(x)| == if x.maxWrite >= 4 && x.nextRead <= x.maxWrite then x.maxWrite + 1 - x.nextRead else 0
  {
  }

  lemma AvailableAt(x: Path, i: nat)
    requires InBounds(x) && 4 <= x.maxWrite < IN_BUFFER_SIZE && x.nextRead <= i && i + 4 <= x.maxWrite + 1
    ensures var n := i - x.nextRead;
            n + 4 <= |Available(x)| && Available(x)[n..n + 4] == [x.buf[i], x.buf[i + 1], x.buf[i + 2], x.buf[i + 3]]
  {
  }

  lemma NoWords(notToSwap: bool)
    ensures NoNewlines(Words([], notToSwap)) == []
  {
  }

  /** The next whole word of `s`. */
  lemma NextWord(s: seq<Byte>, n: nat, notToSwap: bool)
    requires n % 4 == 0 && n + 4 <= |s|
    ensures var w := Pack(s[n..n + 4], notToSwap);
            NoNewlines(Words(s[..n + 4], notToSwap))
            == NoNewlines(Words(s[..n], notToSwap)) + if IsNewline(w) then [] else [w]
  {
    hide Pack, IsNewline, Words;
    WordsConcat(s[..n], s[n..n + 4], notToSwap);
    OneWord(s[n..n + 4], notToSwap);
    assert s[..n + 4] == s[..n] + s[n..n + 4];
    var ws := Words(s[..n], notToSwap);
    assert (ws + [Pack(s[n..n + 4], notToSwap)])[..|ws|] == ws;
  }

  /** Fewer than four further bytes make no further word. */
  lemma WordsPrefix(s: seq<Byte>, n: nat, notToSwap: bool)
    requires n % 4 == 0 && n <= |s| < n + 4
    ensures Words(s, notToSwap) == Words(s[..n], notToSwap) && 4 * |Words(s, notToSwap)| == n
  {
    WordsConcat(s[..n], s[n..], notToSwap);
    assert s == s[..n] + s[n..];
  }
}
