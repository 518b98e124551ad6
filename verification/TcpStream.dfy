/** What the TCP path delivers, stated on the byte stream alone: which bytes are forwarded, when that is exactly
    the part after the HTTP header, and when the words written are exactly the payload. */
module TcpStream {
  import opened HwicapWords
  import opened TcpHwicap

  function Min(a: nat, b: nat): nat {
    if a < b then a else b
  }

  /** The number of CR LF CR LF occurrences, counted where they end. */
  function Newlines(s: seq<Byte>): nat {
    if s == [] then 0 else Newlines(s[..|s| - 1]) + if EndsHeader(s) then 1 else 0
  }

  function Seen(s: seq<Byte>, limit: nat): nat {
    Newlines(s[..Min(|s|, limit)])
  }

  /** The forwarded bytes: those before which the first `limit` bytes hold a number of newlines that is not a
      multiple of four. */
  function Select(s: seq<Byte>, limit: nat): (out: seq<Byte>) {
    if s == [] then [] else
      var t := s[..|s| - 1];
      Select(t, limit) + if Seen(t, limit) % 4 != 0 then [s[|s| - 1]] else []
  }

  function Flat(words: seq<seq<Byte>>): (s: seq<Byte>) {
    if words == [] then [] else Flat(words[..|words| - 1]) + words[|words| - 1]
  }

  const BUFFER_FULL: nat := IN_BUFFER_SIZE - NETWORK_WORD_BYTE_WIDTH

  /** How many bytes of the stream are searched for newlines. */
  function BufferedLen(words: seq<seq<Byte>>): (n: nat)
    ensures n <= |Flat(words)|
    ensures n < BUFFER_FULL ==> n == |Flat(words)|
  {
    if words == [] then 0 else
      var n := BufferedLen(words[..|words| - 1]);
      if n >= BUFFER_FULL then n else n + |words[|words| - 1]|
  }

  lemma SelectSnoc(s: seq<Byte>, b: Byte, limit: nat)
    ensures Select(s + [b], limit) == Select(s, limit) + if Seen(s, limit) % 4 != 0 then [b] else []
  {
    assert (s + [b])[..|s|] == s;
  }

  /** Raising a limit that is not below the length changes nothing. */
  lemma {:induction false} SelectLimit(s: seq<Byte>, l: nat, m: nat)
    requires |s| <= l <= m
    ensures Select(s, l) == Select(s, m)
  {
    if s != [] {
      SelectLimit(s[..|s| - 1], l, m);
    }
  }

  /** The receiver has read the stream `s` and buffered `l` bytes of it. */
  ghost predicate Tracks(r: Rx, s: seq<Byte>, l: nat) {
    && l <= |s| && r.out == Select(s, l) && r.nl == Newlines(s[..l]) % 4
    && (!r.writeOnly ==> l == |s| && r.buf == s)
  }

  lemma ByteTracks(r: Rx, s: seq<Byte>, l: nat, b: Byte)
    requires Tracks(r, s, l)
    ensures Tracks(RxByte(r, b), s + [b], if r.writeOnly then l else l + 1)
  {
    hide Select, Newlines, EndsHeader;
    var m := if r.writeOnly then l else l + 1;
    assert s[..Min(|s|, m)] == s[..l] && (s + [b])[..l] == s[..l];
    SelectSnoc(s, b, m);
    if !r.writeOnly {
      SelectLimit(s, l, m);
      NewlinesSnoc(s, b);
      assert (s + [b])[..m] == s + [b] && s[..l] == s;
    }
  }

  lemma KeepsMode(r: Rx, b: Byte)
    ensures RxByte(r, b).writeOnly == r.writeOnly
  {
  }

  lemma {:induction false} BytesTrack(r: Rx, s: seq<Byte>, l: nat, bytes: seq<Byte>)
    requires Tracks(r, s, l)
    ensures Tracks(RxBytes(r, bytes), s + bytes, if r.writeOnly then l else l + |bytes|)
    ensures RxBytes(r, bytes).writeOnly == r.writeOnly
  {
    hide Tracks, RxByte;
    if bytes == [] {
      assert s + bytes == s;
    } else {
      var n := |bytes| - 1;
      BytesTrack(r, s, l, bytes[..n]);
      KeepsMode(RxBytes(r, bytes[..n]), bytes[n]);
      assert s + bytes == s + bytes[..n] + [bytes[n]];
      ByteTracks(RxBytes(r, bytes[..n]), s + bytes[..n], if r.writeOnly then l else l + n, bytes[n]);
    }
  }

  lemma NewlinesSnoc(s: seq<Byte>, b: Byte)
    ensures Newlines(s + [b]) == Newlines(s) + if EndsHeader(s + [b]) then 1 else 0
  {
    assert (s + [b])[..|s|] == s;
  }

  /** The receiver, over every split into words, forwards the selected bytes of the stream. */
  lemma {:induction false} ReceiverSelects(words: seq<seq<Byte>>)
    ensures var r := RxWords(RX_INIT, words);
            Tracks(r, Flat(words), BufferedLen(words)) && (r.writeOnly <==> BufferedLen(words) >= BUFFER_FULL)
  {
    if words != [] {
      var n := |words| - 1;
      ReceiverSelects(words[..n]);
      hide Select, Newlines, RxBytes;
      BytesTrack(RxWords(RX_INIT, words[..n]), Flat(words[..n]), BufferedLen(words[..n]), words[n]);
    }
  }

  lemma {:induction false} NewlinesMonotone(s: seq<Byte>, k: nat)
    requires k <= |s|
    ensures Newlines(s[..k]) <= Newlines(s)
  {
    if k < |s| {
      NewlinesMonotone(s[..|s| - 1], k);
      assert s[..|s| - 1][..k] == s[..k];
    } else {
      assert s[..k] == s;
    }
  }

  lemma SeenStep(s: seq<Byte>, limit: nat)
    requires s != []
    ensures Seen(s[..|s| - 1], limit) <= Seen(s, limit) <= Seen(s[..|s| - 1], limit) + 1
  {
    var t := s[..|s| - 1];
    var m := Min(|s|, limit);
    if m == |s| {
      assert s[..m] == s && t[..Min(|t|, limit)] == t;
    } else {
      assert t[..Min(|t|, limit)] == s[..m];
    }
  }

  /** Nothing is forwarded before the first newline. */
  lemma {:induction false} NothingForwarded(s: seq<Byte>, limit: nat)
    requires s == [] || Seen(s[..|s| - 1], limit) == 0
    ensures Select(s, limit) == []
  {
    if s != [] {
      var t := s[..|s| - 1];
      if t != [] {
        SeenStep(t, limit);
      }
      NothingForwarded(t, limit);
    }
  }

  /** The first newline of `h` is at its end. */
  ghost predicate IsHeader(h: seq<Byte>) {
    EndsHeader(h) && Newlines(h) == 1
  }

  lemma FourIsZero(n: nat)
    ensures n == 4 ==> n % 4 == 0
    ensures 1 <= n <= 3 ==> n % 4 != 0
  {
  }

  lemma SeenAll(s: seq<Byte>, limit: nat)
    requires |s| <= limit
    ensures Seen(s, limit) == Newlines(s)
  {
    assert s[..|s|] == s;
  }

  /** With a header in the buffered part: how many bytes are forwarded, and which. */
  lemma {:induction false} ForwardedBound(s: seq<Byte>, h: seq<Byte>, limit: nat)
    requires IsHeader(h) && h <= s && |h| <= limit
    ensures Seen(s, limit) >= 1 && (s == h ==> Seen(s, limit) == 1)
    ensures |Select(s, limit)| <= |s| - |h|
    ensures s == h || Seen(s[..|s| - 1], limit) <= 3 ==> Select(s, limit) == s[|h|..]
    ensures s != h && Seen(s[..|s| - 1], limit) >= 4 ==> |Select(s, limit)| < |s| - |h|
    decreases |s|
  {
    hide Select;
    var t := s[..|s| - 1];
    if s == h {
      SeenAll(h, limit);
      SeenAll(t, limit);
      NothingForwarded(h, limit);
    } else {
      hide Seen, IsHeader;
      ForwardedBound(t, h, limit);
      SeenStep(s, limit);
      SeenStep(t, limit);
      FourIsZero(Seen(t, limit));
      assert s == t + [s[|t|]] && s[|h|..] == t[|h|..] + [s[|t|]];
      SelectSnoc(t, s[|t|], limit);
    }
  }

  /** A header that ends after the buffered bytes is never found. */
  lemma LateHeaderLost(s: seq<Byte>, h: seq<Byte>, limit: nat)
    requires IsHeader(h) && h <= s && limit < |h|
    ensures Select(s, limit) == []
  {
    HeaderInit(h);
    hide Newlines, IsHeader, Select;
    var t, init := s[..|s| - 1], h[..|h| - 1];
    NewlinesMonotone(init, limit);
    assert t[..limit] == init[..limit];
    NothingForwarded(s, limit);
  }

  /** The forwarded bytes are exactly those after the header if and only if there are none, or the header ends within
      the buffered bytes and at most three newlines are counted before the final byte: the two-bit counter wraps at
      the fourth. */
  lemma ForwardsAfterHeader(s: seq<Byte>, h: seq<Byte>, limit: nat)
    requires IsHeader(h) && h <= s
    ensures Select(s, limit) == s[|h|..] <==> s == h || (|h| <= limit && Seen(s[..|s| - 1], limit) <= 3)
  {
    hide Select, Seen, IsHeader;
    if |h| <= limit {
      ForwardedBound(s, h, limit);
    } else {
      LateHeaderLost(s, h, limit);
    }
  }

  /** Five CR LF pairs hold four newlines; the byte after them is lost. */
  lemma FourNewlinesLoseAByte(b: Byte)
    ensures var s := [0x0d, 0x0a, 0x0d, 0x0a, 0x0d, 0x0a, 0x0d, 0x0a, 0x0d, 0x0a, b];
            IsHeader(s[..4]) && Select(s, IN_BUFFER_SIZE) == s[4..10]
  {
    hide Newlines, Seen, Select, EndsHeader;
    var s: seq<Byte> := [0x0d, 0x0a, 0x0d, 0x0a, 0x0d, 0x0a, 0x0d, 0x0a, 0x0d, 0x0a, b];
    var t := s[..10];
    SeenAll(s[..9], IN_BUFFER_SIZE);
    SeenAll(t, IN_BUFFER_SIZE);
    PairEnds(s, 4);
    CountPairs(s, 4);
    CountPairs(s, 9);
    CountPairs(s, 10);
    assert t[..9] == s[..9] && t[4..] == s[4..10];
    ForwardsAfterHeader(t, s[..4], IN_BUFFER_SIZE);
    assert s == t + [b];
    SelectSnoc(t, b, IN_BUFFER_SIZE);
  }

  /** Five CR LF pairs. */
  ghost predicate Pairs(s: seq<Byte>) {
    |s| >= 10 && forall i | 0 <= i < 10 :: s[i] == if i % 2 == 0 then 0x0d else 0x0a
  }

  lemma PairEnds(s: seq<Byte>, k: nat)
    requires Pairs(s) && k <= 10
    ensures EndsHeader(s[..k]) <==> k >= 4 && k % 2 == 0
  {
    EndsHeaderBytes(s[..k]);
    hide EndsHeader;
    if k >= 4 {
      assert s[k - 1] == if (k - 1) % 2 == 0 then 0x0d else 0x0a;
      assert s[k - 2] == if (k - 2) % 2 == 0 then 0x0d else 0x0a;
      assert s[k - 3] == if (k - 3) % 2 == 0 then 0x0d else 0x0a;
      assert s[k - 4] == if (k - 4) % 2 == 0 then 0x0d else 0x0a;
    }
  }

  lemma NewlinesNone()
    ensures Newlines([]) == 0
  {
  }

  lemma {:induction false} CountPairs(s: seq<Byte>, k: nat)
    requires Pairs(s) && k <= 10 <= |s|
    ensures Newlines(s[..k]) == if k < 4 then 0 else k / 2 - 1
  {
    hide *;
    if k == 0 {
      NewlinesNone();
    } else {
      CountPairs(s, k - 1);
      PairEnds(s, k);
      assert s[..k] == s[..k - 1] + [s[k - 1]];
      NewlinesSnoc(s[..k - 1], s[k - 1]);
    }
  }

  /** The first stop word does not come before the end of a payload without stop words. */
  lemma StopNotBefore(taken: seq<Byte>, payload: seq<Byte>, rest: seq<Byte>, notToSwap: bool)
    requires |taken| % 4 == 0 && |taken| >= 4 && taken <= payload + rest
    requires |payload| % 4 == 0 && NoStop(Words(payload, notToSwap)) && IsStop(Pack(taken[|taken| - 4..], notToSwap))
    ensures |taken| - 4 >= |payload|
  {
    hide Words, Pack, IsStop;
    var n := |taken| - 4;
    if n < |payload| {
      assert payload[n..n + 4] == taken[n..];
      WordAt(payload, notToSwap, n / 4);
    }
  }

  /** The first stop word does not come after the terminator that follows the payload. */
  lemma StopNotAfter(w: seq<Byte>, payload: seq<Byte>, rest: seq<Byte>, notToSwap: bool)
    requires |payload| % 4 == 0 && |w| % 4 == 0 && w <= payload + (CRLFCRLF + rest) && NoStop(Words(w, notToSwap))
    ensures |w| <= |payload|
  {
    hide Words, Pack, IsNewline;
    if |w| > |payload| {
      assert w[|payload|..|payload| + 4] == CRLFCRLF;
      NewlinePacks(notToSwap);
      WordAt(w, notToSwap, |payload| / 4);
    }
  }

  /** The words before the first stop word unpack to the payload if and only if the payload is a whole
      number of words and contains no aligned stop word. */
  lemma PayloadWritten(taken: seq<Byte>, payload: seq<Byte>, tail: seq<Byte>, notToSwap: bool)
    requires |taken| % 4 == 0 && |taken| >= 4 && taken <= payload + (CRLFCRLF + tail)
    requires NoStop(Words(taken[..|taken| - 4], notToSwap)) && IsStop(Pack(taken[|taken| - 4..], notToSwap))
    ensures UnpackAll(Words(taken[..|taken| - 4], notToSwap), notToSwap) == payload
            <==> |payload| % 4 == 0 && NoStop(Words(payload, notToSwap))
  {
    hide *;
    var w := taken[..|taken| - 4];
    UnpackWords(w, notToSwap);
    WholeWords(w);
    if |payload| % 4 == 0 && NoStop(Words(payload, notToSwap)) {
      StopNotBefore(taken, payload, CRLFCRLF + tail, notToSwap);
      StopNotAfter(w, payload, tail, notToSwap);
      assert w == payload;
    }
  }

  /** Any run of bytes taken from what the receiver forwards that ends with the first stop word. */
  lemma TakenPayload(words: seq<seq<Byte>>, taken: seq<Byte>, header: seq<Byte>, payload: seq<Byte>, tail: seq<Byte>,
                     notToSwap: bool)
    requires |taken| % 4 == 0 && |taken| >= 4 && taken <= RxWords(RX_INIT, words).out
    requires NoStop(Words(taken[..|taken| - 4], notToSwap)) && IsStop(Pack(taken[|taken| - 4..], notToSwap))
    requires IsHeader(header) && |header| <= BUFFER_FULL && Flat(words) <= header + (payload + (CRLFCRLF + tail))
    requires Flat(words) != [] ==> Seen(Flat(words)[..|Flat(words)| - 1], BufferedLen(words)) <= 3
    ensures UnpackAll(Words(taken[..|taken| - 4], notToSwap), notToSwap) == payload
            <==> |payload| % 4 == 0 && NoStop(Words(payload, notToSwap))
  {
    hide *;
    var s, l := Flat(words), BufferedLen(words);
    ReceiverSelects(words);
    TracksOutput(RxWords(RX_INIT, words), s, l);
    FirstPart(header, payload + (CRLFCRLF + tail), s);
    if |s| < |header| {
      PrefixOfHeader(header, s, l);
      assert false;
    } else {
      ForwardsAfterHeader(s, header, l);
      PayloadWritten(taken, payload, tail, notToSwap);
    }
  }

  /** When the transfer has ended, over every split into words, FIFO depth and vacancy schedule: the HWICAP
      holds exactly the payload, if and only if the payload is whole words without a stop word. */
  lemma TransferWritesPayload(path: TcpHwicapPath, header: seq<Byte>, payload: seq<Byte>, tail: seq<Byte>)
    requires path.Valid() && path.icap.Done?
    requires IsHeader(header) && |header| <= BUFFER_FULL && Flat(path.words) <= header + (payload + (CRLFCRLF + tail))
    requires Flat(path.words) != [] ==> Seen(Flat(path.words)[..|Flat(path.words)| - 1], BufferedLen(path.words)) <= 3
    ensures UnpackAll(path.hwicap, path.notToSwap) == payload
            <==> |payload| % 4 == 0 && NoStop(Words(payload, path.notToSwap))
  {
    hide *;
    TransferEnd(path);
    TakenPayload(path.words, path.taken, header, payload, tail, path.notToSwap);
  }

  // ---- The transfer ends ----

  /** What the invariant says while the transfer runs. */
  lemma RunningMeans(path: TcpHwicapPath)
    requires path.Valid() && path.icap.Write?
    ensures path.hwicap == Words(path.taken, path.notToSwap) && NoStop(path.hwicap)
    ensures |path.taken| % 4 == 0 && |path.hangover| < 4 && path.overflowLen <= path.overflow.Length
    ensures path.taken + path.hangover + (path.fifo + path.overflow[..path.overflowLen])
            == RxWords(RX_INIT, path.words).out
  {
  }

  /** Once header, payload and terminator are received, a transfer that still runs has bytes waiting. */
  lemma RunningWaits(path: TcpHwicapPath, header: seq<Byte>, payload: seq<Byte>, tail: seq<Byte>)
    requires path.Valid() && path.icap.Write? && |payload| % 4 == 0
    requires IsHeader(header) && |header| <= BUFFER_FULL && Flat(path.words) == header + (payload + (CRLFCRLF + tail))
    requires Flat(path.words) != [] ==> Seen(Flat(path.words)[..|Flat(path.words)| - 1], BufferedLen(path.words)) <= 3
    ensures path.fifo != [] || path.overflowLen > 0
  {
    hide *;
    var s, l, sent := Flat(path.words), BufferedLen(path.words), payload + (CRLFCRLF + tail);
    RunningMeans(path);
    ReceiverSelects(path.words);
    TracksOutput(RxWords(RX_INIT, path.words), s, l);
    HeaderBuffered(path.words, header);
    HeaderFirst(header, sent);
    ForwardsAfterHeader(s, header, l);
    if path.fifo == [] && path.overflowLen == 0 {
      assert path.taken + path.hangover + ([] + path.overflow[..0]) == path.taken + path.hangover;
      StopReached(path.taken, path.hangover, payload, tail, path.notToSwap);
    }
  }

  lemma HeaderFirst(h: seq<Byte>, rest: seq<Byte>)
    ensures h <= h + rest && (h + rest)[|h|..] == rest
  {
  }

  /** A header that fits is within the buffered part of a stream that holds it. */
  lemma HeaderBuffered(words: seq<seq<Byte>>, h: seq<Byte>)
    requires |h| <= BUFFER_FULL && h <= Flat(words)
    ensures |h| <= BufferedLen(words)
  {
    hide Flat;
  }

  /** The terminator is a whole word of bytes that reach beyond it by less than a word. */
  lemma StopReached(taken: seq<Byte>, hangover: seq<Byte>, payload: seq<Byte>, tail: seq<Byte>, notToSwap: bool)
    requires |taken| % 4 == 0 && |hangover| < 4 && |payload| % 4 == 0
    requires taken + hangover == payload + (CRLFCRLF + tail)
    ensures !NoStop(Words(taken, notToSwap))
  {
    hide Words, Pack, IsNewline;
    var n := |payload|;
    assert |taken| >= n + 4;
    assert (taken + hangover)[n..n + 4] == taken[n..n + 4];
    assert (payload + (CRLFCRLF + tail))[n..n + 4] == CRLFCRLF;
    NewlinePacks(notToSwap);
    WordAt(taken, notToSwap, n / 4);
    StopAt(Words(taken, notToSwap), n / 4);
  }

  lemma StopAt(ws: seq<Word>, k: nat)
    requires k < |ws| && IsNewline(ws[k])
    ensures !NoStop(ws)
  {
    assert IsStop(ws[k]);
  }

  lemma Bounds(path: TcpHwicapPath)
    requires path.Valid()
    ensures |path.hangover| < 4 && |path.fifo| <= path.depth && path.depth > 0
  {
  }

  lemma TotalKept(t: seq<Byte>, h: seq<Byte>, f: seq<Byte>, u: seq<Byte>, i: seq<Byte>, g: seq<Byte>)
    requires t <= u && u + i + g == t + h + f
    ensures |i| + |g| <= |h| + |f|
  {
    assert |u + i + g| == |t + h + f|;
  }

  /** What a call of the core still has to do while nothing arrives: bytes move from the overflow buffer to the FIFO,
      to the hangover FIFO, and out. */
  ghost function Waiting(path: TcpHwicapPath): nat
    reads path
  {
    3 * path.overflowLen + 2 * |path.fifo| + |path.hangover|
  }

  lemma RoomNotExhausted(wfv: nat -> nat, readings: nat, n: int)
    requires readings > 1 && wfv(readings - 1) > 0
    ensures !Exhausted(wfv, readings, n)
  {
  }

  /** The HWICAP part of a call, with room in the HWICAP. */
  method CallHwicap(path: TcpHwicapPath)
    requires path.Valid() && path.icap.Write?
    modifies path`fifo, path`hangover, path`icap, path`hwicap, path`detectedNl, path`taken
    ensures path.Valid() && (path.icap.Done? || path.icap.Write?)
    ensures path.icap.Write? ==> Waiting(path) <= old(Waiting(path)) && (old(path.fifo) == [] ==> path.fifo == [])
    ensures path.icap.Write? && old(path.fifo) != [] ==> Waiting(path) < old(Waiting(path))
  {
    var roomy: nat -> nat := _ => 1;
    assert IN_BUFFER_SIZE == 4096 && forall i: nat :: roomy(i) > 0;
    hide *;
    WaitingIs(path);
    ghost var t, h, f := path.taken, path.hangover, path.fifo;
    Bounds(path);
    ghost var readings := path.WriteHwicap(true, roomy);
    if readings > 1 {
      RoomNotExhausted(roomy, readings, |path.hwicap| - |old(path.hwicap)|);
    }
    TotalKept(t, h, f, path.taken, path.hangover, path.fifo);
    WaitingIs(path);
  }

  /** The receiving part, with nothing to receive. */
  method CallReceiver(path: TcpHwicapPath)
    requires path.Valid() && path.icap.Write?
    modifies path, path.bufferIn, path.overflow, path.last3Chars
    ensures path.Valid() && path.icap.Write? && path.words == old(path.words)
    ensures Waiting(path) <= old(Waiting(path))
    ensures old(path.fifo) == [] && old(path.overflowLen) > 0 ==> Waiting(path) < old(Waiting(path))
  {
    hide *;
    WaitingIs(path);
    Bounds(path);
    var k, done := path.ReceiveTcp([], false, 0, false);
    WaitingIs(path);
  }

  lemma WaitingIs(path: TcpHwicapPath)
    ensures Waiting(path) == 3 * path.overflowLen + 2 * |path.fifo| + |path.hangover|
  {
  }

  /** Calls of the core while nothing more arrives, with the HWICAP accessible and taking words: either a stop word
      ends the transfer, or the FIFO and the overflow buffer run empty. */
  method CallUntilDrained(path: TcpHwicapPath)
    requires path.Valid() && path.icap.Write?
    modifies path, path.bufferIn, path.overflow, path.last3Chars
    ensures path.Valid() && path.words == old(path.words)
    ensures path.icap.Done? || (path.icap.Write? && path.fifo == [] && path.overflowLen == 0)
  {
    hide *;
    while path.icap.Write? && (path.fifo != [] || path.overflowLen > 0)
      invariant path.Valid() && path.words == old(path.words) && (path.icap.Write? || path.icap.Done?)
      decreases Waiting(path)
    {
      CallHwicap(path);
      if path.icap.Done? {
        break;
      }
      CallReceiver(path);
    }
  }

  /** Once header, payload and terminator are received, such calls end the transfer, with exactly the payload in the
      HWICAP if and only if it holds no aligned stop word. */
  method FinishTransfer(path: TcpHwicapPath, ghost header: seq<Byte>, ghost payload: seq<Byte>, ghost tail: seq<Byte>)
    requires path.Valid() && path.icap.Write? && |payload| % 4 == 0
    requires IsHeader(header) && |header| <= BUFFER_FULL && Flat(path.words) == header + (payload + (CRLFCRLF + tail))
    requires Flat(path.words) != [] ==> Seen(Flat(path.words)[..|Flat(path.words)| - 1], BufferedLen(path.words)) <= 3
    modifies path, path.bufferIn, path.overflow, path.last3Chars
    ensures path.Valid() && path.icap.Done?
    ensures UnpackAll(path.hwicap, path.notToSwap) == payload <==> NoStop(Words(payload, path.notToSwap))
  {
    hide *;
    CallUntilDrained(path);
    if path.icap.Write? {
      RunningWaits(path, header, payload, tail);
    }
    TransferWritesPayload(path, header, payload, tail);
  }

  /** While the transfer runs: what the HWICAP holds, unpacked, then the hangover, the FIFO and the overflow
      buffer, are the forwarded bytes, each once and in order. */
  lemma NothingLost(path: TcpHwicapPath)
    requires path.Valid() && !path.icap.Done?
    ensures UnpackAll(path.hwicap, path.notToSwap) + path.hangover + path.fifo + path.overflow[..path.overflowLen]
            == Select(Flat(path.words), BufferedLen(path.words))
  {
    hide Select, Words, UnpackAll, RxWords, Flat, BufferedLen, NoStop;
    ReceiverSelects(path.words);
    TracksOutput(RxWords(RX_INIT, path.words), Flat(path.words), BufferedLen(path.words));
    UnpackWords(path.taken, path.notToSwap);
    WholeWords(path.taken);
    assert path.taken + path.hangover + (path.fifo + path.overflow[..path.overflowLen])
        == path.taken + path.hangover + path.fifo + path.overflow[..path.overflowLen];
  }

  lemma WholeWords(s: seq<Byte>)
    requires |s| % 4 == 0
    ensures s[..|s| / 4 * 4] == s
  {
  }

  lemma TracksOutput(r: Rx, s: seq<Byte>, l: nat)
    requires Tracks(r, s, l)
    ensures r.out == Select(s, l)
  {
  }

  lemma FirstPart(h: seq<Byte>, rest: seq<Byte>, s: seq<Byte>)
    requires s <= h + rest
    ensures if |s| < |h| then s < h else h <= s && s[|h|..] <= rest
  {
    assert (h + rest)[|h|..] == rest;
  }

  /** What the invariant says once the transfer has ended. */
  lemma TransferEnd(path: TcpHwicapPath)
    requires path.Valid() && path.icap.Done?
    ensures var taken := path.taken;
            && |taken| >= 4 && |taken| % 4 == 0
            && taken <= RxWords(RX_INIT, path.words).out
            && path.hwicap == Words(taken[..|taken| - 4], path.notToSwap)
            && NoStop(path.hwicap) && IsStop(Pack(taken[|taken| - 4..], path.notToSwap))
  {
  }

  lemma HeaderInit(h: seq<Byte>)
    requires IsHeader(h)
    ensures |h| >= 4 && Newlines(h[..|h| - 1]) == 0
  {
  }

  lemma PrefixOfHeader(h: seq<Byte>, s: seq<Byte>, limit: nat)
    requires IsHeader(h) && s < h
    ensures Select(s, limit) == []
  {
    HeaderInit(h);
    hide Newlines, IsHeader, Select;
    if s != [] {
      var t := s[..|s| - 1];
      var init := h[..|h| - 1];
      NewlinesMonotone(init, Min(|t|, limit));
      assert t[..Min(|t|, limit)] == init[..Min(|t|, limit)];
    }
    NothingForwarded(s, limit);
  }
}
