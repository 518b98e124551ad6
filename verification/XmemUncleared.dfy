/** Transfers that continue where the buffer was, because their first call found the HWICAP's abort flag high: what
    their pages write, and for which pointers they conserve their bytes. */
module XmemUncleared {
  import opened HwicapWords
  import opened XmemPath
  import opened XmemTransfer

  /** The bytes that a full page makes available, wherever the two pointers stand. */
  function Offered(x: Path, p: Page): seq<Byte>
    requires InBounds(x)
  {
    if x.nextRead <= x.write then x.buf[x.nextRead..x.write] + Payload(p)
    else if x.nextRead - x.write < PAYLOAD_BYTES_PER_PAGE then Payload(p)[x.nextRead - x.write..]
    else []
  }

  lemma OverlayFrom(b: seq<Byte>, w: nat, t: seq<Byte>, from: nat)
    requires w < from < w + |t| <= |b|
    ensures (b[..w] + t + b[w + |t|..])[from..w + |t|] == t[from - w..]
  {
  }

  lemma PageOffers(x: Path, p: Page, n: nat)
    requires InBounds(x) && n < 128 && Check(p, x.pageCnt).FullPage?
    ensures Available(Copied(x, p, n)) == Offered(x, p)
  {
    CopiedFullPage(x, p, n);
    CopiedPage(x, p, PAYLOAD_BYTES_PER_PAGE);
    if x.nextRead <= x.write {
      PageAvailable(x, p, PAYLOAD_BYTES_PER_PAGE);
      hide Check, Payload, Copied;
      assert Payload(p)[..PAYLOAD_BYTES_PER_PAGE] == Payload(p);
      assert x.buf[x.nextRead..x.write] + Payload(p) + [] == x.buf[x.nextRead..x.write] + Payload(p);
    } else {
      hide Check, Payload, Copied;
      if x.nextRead - x.write < PAYLOAD_BYTES_PER_PAGE {
        OverlayFrom(x.buf, x.write, Payload(p), x.nextRead);
      }
    }
  }

  /** What a full page writes: the bytes left in the buffer lead, or the bytes before the read pointer are missing. */
  lemma FullPageWrites(x: Path, p: Page, n: nat, notToSwap: bool)
    requires InBounds(x) && n < 128 && Check(p, x.pageCnt).FullPage?
    ensures var y := Written(Copied(x, p, n), notToSwap);
            && y.hwicap == x.hwicap + NoNewlines(Words(Offered(x, p), notToSwap))
            && y.write == Wrapped(x.write + PAYLOAD_BYTES_PER_PAGE)
            && y.nextRead == Wrapped(x.nextRead + |Offered(x, p)| / 4 * 4) && y.pageCnt == x.pageCnt + 1
  {
    PageOffers(x, p, n);
    CopiedFullPage(x, p, n);
    CopiedPage(x, p, PAYLOAD_BYTES_PER_PAGE);
    hide Check, Payload, Copied, Available, Offered, Words, NoNewlines;
    WordCount(Offered(x, p), notToSwap);
  }

  // ---- Many full pages ----

  /** A full page, and the byte order of the call that accepts it. */
  datatype Arrival = Arrival(page: Page, notToSwap: bool)

  function Pages(x: Path, ps: seq<Arrival>): (y: Path)
    requires InBounds(x)
    ensures InBounds(y)
  {
    if ps == [] then x else
      var a := ps[|ps| - 1];
      Written(Copied(Pages(x, ps[..|ps| - 1]), a.page, PAYLOAD_BYTES_PER_PAGE), a.notToSwap)
  }

  /** Each page is accepted at its turn. */
  ghost predicate AllFull(x: Path, ps: seq<Arrival>)
    requires InBounds(x)
  {
    ps == [] || (AllFull(x, ps[..|ps| - 1]) && Check(ps[|ps| - 1].page, Pages(x, ps[..|ps| - 1]).pageCnt).FullPage?)
  }

  function Sent(ps: seq<Arrival>): (s: seq<Byte>)
    ensures |s| == PAYLOAD_BYTES_PER_PAGE * |ps|
  {
    if ps == [] then [] else Sent(ps[..|ps| - 1]) + Payload(ps[|ps| - 1].page)
  }

  function Orders(ps: seq<Arrival>): (os: seq<bool>)
    ensures |os| == |Sent(ps)| / 4
  {
    if ps == [] then [] else
      MoreOrders(Orders(ps[..|ps| - 1]), |Sent(ps[..|ps| - 1])|, PAYLOAD_BYTES_PER_PAGE, ps[|ps| - 1].notToSwap)
  }

  /** The buffered bytes that wait to be written. */
  function Rest(x: Path): seq<Byte>
    requires InBounds(x)
  {
    if x.nextRead <= x.write then x.buf[x.nextRead..x.write] else []
  }

  function From(x: Path): Path {
    x.(hwicap := [])
  }

  /** The words written from here on and the buffered rest are those of the pages. */
  ghost predicate Kept(x: Path, ps: seq<Arrival>)
    requires InBounds(x)
  {
    var y, s := Pages(From(x), ps), Sent(ps);
    y.hwicap == NoNewlines(Mixed(s, Orders(ps))) && Rest(y) == s[|s| / 4 * 4..]
  }

  lemma FitsBelow(o: nat, m: nat)
    requires o < WRAP_AT && Fits(o, m + 1)
    ensures Fits(o, m)
  {
  }

  /** Pages that start with nothing left to write, and whose wraps come after whole words, are conserved. */
  lemma {:induction false} SoundConserves(x: Path, ps: seq<Arrival>)
    requires InBounds(x) && x.nextRead == x.write && AllFull(From(x), ps) && Fits(x.write, |ps|)
    ensures Conserves(Pages(From(x), ps), Sent(ps), Orders(ps), x.write, |ps|)
  {
    hide Conserves, Check, Payload, Copied, Written, Fits, Pos, MoreOrders;
    if ps == [] {
      NothingConserved(x);
    } else {
      var init, a := ps[..|ps| - 1], ps[|ps| - 1];
      FitsBelow(x.write, |init|);
      SoundConserves(x, init);
      FullPageConserves(Pages(From(x), init), Sent(init), Orders(init), x.write, |init|, a.page, PAYLOAD_BYTES_PER_PAGE,
                        a.notToSwap);
    }
  }

  lemma NothingConserved(x: Path)
    requires InBounds(x) && x.nextRead == x.write
    ensures Conserves(From(x), [], [], x.write, 0)
  {
    MixedNone([]);
  }

  lemma ConservesKept(x: Path, ps: seq<Arrival>, o: nat, m: nat)
    requires InBounds(x) && Conserves(Pages(From(x), ps), Sent(ps), Orders(ps), o, m)
    ensures Kept(x, ps)
  {
  }

  // ---- Counting ----

  /** The bytes of the words written, and those that wait. */
  function Total(x: Path): nat
    requires InBounds(x)
  {
    4 * |x.hwicap| + |Rest(x)|
  }

  function Waiting(write: nat, nextRead: nat): nat {
    if nextRead <= write then write - nextRead else 0
  }

  lemma TotalIs(x: Path)
    requires InBounds(x)
    ensures Total(x) == 4 * |x.hwicap| + Waiting(x.write, x.nextRead)
  {
  }

  function OfferedLength(write: nat, nextRead: nat): nat {
    if nextRead <= write then write - nextRead + PAYLOAD_BYTES_PER_PAGE
    else if nextRead - write < PAYLOAD_BYTES_PER_PAGE then PAYLOAD_BYTES_PER_PAGE - (nextRead - write)
    else 0
  }

  lemma OfferedIs(x: Path, p: Page)
    requires InBounds(x)
    ensures |Offered(x, p)| == OfferedLength(x.write, x.nextRead)
  {
    hide Payload;
  }

  lemma QuadsOf(n: nat)
    ensures n / 4 * 4 <= n < n / 4 * 4 + 4 && (n / 4 * 4 == n <==> n % 4 == 0)
  {
  }

  /** What the pointers of one page leave waiting. */
  lemma PointerGain(write: nat, nextRead: nat)
    requires write < WRAP_AT && nextRead < WRAP_AT
    ensures var n, end := OfferedLength(write, nextRead), write + PAYLOAD_BYTES_PER_PAGE;
            var left := n / 4 * 4 + Waiting(Wrapped(end), Wrapped(nextRead + n / 4 * 4));
            && left <= Waiting(write, nextRead) + PAYLOAD_BYTES_PER_PAGE
            && (nextRead > write || (end >= WRAP_AT && (end - nextRead) % 4 != 0) ==>
                  left < Waiting(write, nextRead) + PAYLOAD_BYTES_PER_PAGE)
  {
    var n := OfferedLength(write, nextRead);
    QuadsOf(n);
    hide *;
    PointerCases(write, nextRead, n, n / 4 * 4);
  }

  lemma PointerCases(write: nat, nextRead: nat, n: nat, q: nat)
    requires write < WRAP_AT && nextRead < WRAP_AT && n == OfferedLength(write, nextRead)
    requires q <= n < q + 4 && (q == n <==> n % 4 == 0)
    ensures var end := write + PAYLOAD_BYTES_PER_PAGE;
            var left := q + Waiting(Wrapped(end), Wrapped(nextRead + q));
            && left <= Waiting(write, nextRead) + PAYLOAD_BYTES_PER_PAGE
            && (nextRead > write || (end >= WRAP_AT && (end - nextRead) % 4 != 0) ==>
                  left < Waiting(write, nextRead) + PAYLOAD_BYTES_PER_PAGE)
  {
  }

  /** A page adds at most its 126 bytes; fewer if the read pointer was ahead, or if a wrap drops bytes. */
  lemma PageGain(x: Path, p: Page, notToSwap: bool)
    requires InBounds(x) && Check(p, x.pageCnt).FullPage?
    ensures var y, end := Written(Copied(x, p, PAYLOAD_BYTES_PER_PAGE), notToSwap), x.write + PAYLOAD_BYTES_PER_PAGE;
            && Total(y) <= Total(x) + PAYLOAD_BYTES_PER_PAGE
            && (x.nextRead > x.write || (end >= WRAP_AT && (end - x.nextRead) % 4 != 0) ==>
                  Total(y) < Total(x) + PAYLOAD_BYTES_PER_PAGE)
  {
    hide Check, Payload, Copied, Written, Words, NoNewlines, Offered, Total, OfferedLength, Waiting, Wrapped;
    var y := Written(Copied(x, p, PAYLOAD_BYTES_PER_PAGE), notToSwap);
    FullPageWrites(x, p, PAYLOAD_BYTES_PER_PAGE, notToSwap);
    OfferedIs(x, p);
    PointerGain(x.write, x.nextRead);
    AllKept(Words(Offered(x, p), notToSwap));
    WordCount(Offered(x, p), notToSwap);
    TotalIs(x);
    TotalIs(y);
  }

  /** With the read pointer ahead of the write pointer, the total stays behind for good. */
  lemma {:induction false} AheadLoses(x: Path, ps: seq<Arrival>)
    requires InBounds(x) && x.nextRead > x.write && AllFull(From(x), ps) && ps != []
    ensures Total(Pages(From(x), ps)) < PAYLOAD_BYTES_PER_PAGE * |ps|
  {
    var init, a := ps[..|ps| - 1], ps[|ps| - 1];
    PageGain(Pages(From(x), init), a.page, a.notToSwap);
    if init != [] {
      hide Check, Copied, Written, Total;
      AheadLoses(x, init);
    }
  }

  /** The page of the first wrap, if it is an odd one, drops two bytes. */
  lemma OddWrap(x: Path, ps: seq<Arrival>)
    requires InBounds(x) && x.nextRead == x.write && AllFull(From(x), ps)
    requires |ps| == FirstWrap(x.write) && FirstWrap(x.write) % 2 == 1
    ensures Total(Pages(From(x), ps)) < PAYLOAD_BYTES_PER_PAGE * |ps|
  {
    var init, a := ps[..|ps| - 1], ps[|ps| - 1];
    var m := |init|;
    OddPointers(x.write, m);
    hide *;
    HalfWord(x.write);
    AllFullInit(x, ps);
    SoundConserves(x, init);
    ConservedTotal(Pages(From(x), init), Sent(init), Orders(init), x.write, m);
    PageGain(Pages(From(x), init), a.page, a.notToSwap);
    PagesNext(x, ps);
  }

  lemma OddPointers(o: nat, m: nat)
    requires o < WRAP_AT && m + 1 == FirstWrap(o) && FirstWrap(o) % 2 == 1
    ensures Fits(o, m) && Left(m) == 0 && Pos(o, m) + PAYLOAD_BYTES_PER_PAGE >= WRAP_AT
  {
    PosIs(o, m);
    FirstWrapIs(o, m + 1);
    hide FirstWrap, Pos;
  }

  lemma HalfWord(w: nat)
    ensures (w + PAYLOAD_BYTES_PER_PAGE - w) % 4 != 0
  {
  }

  lemma AllFullInit(x: Path, ps: seq<Arrival>)
    requires InBounds(x) && AllFull(From(x), ps) && ps != []
    ensures var init := ps[..|ps| - 1];
            AllFull(From(x), init) && Check(ps[|ps| - 1].page, Pages(From(x), init).pageCnt).FullPage?
  {
    hide Check, Copied, Written;
  }

  lemma PagesNext(x: Path, ps: seq<Arrival>)
    requires InBounds(x) && ps != []
    ensures var init, a := ps[..|ps| - 1], ps[|ps| - 1];
            Pages(From(x), ps) == Written(Copied(Pages(From(x), init), a.page, PAYLOAD_BYTES_PER_PAGE), a.notToSwap)
  {
    hide Check, Copied, Written;
  }

  /** The first wrap after an odd number of pages drops two bytes for good. */
  lemma {:induction false} OddWrapLoses(x: Path, ps: seq<Arrival>)
    requires InBounds(x) && x.nextRead == x.write && AllFull(From(x), ps) && !Fits(x.write, |ps|)
    ensures Total(Pages(From(x), ps)) < PAYLOAD_BYTES_PER_PAGE * |ps|
  {
    hide Check, Copied, Written, Total, FirstWrap;
    if |ps| == FirstWrap(x.write) {
      OddWrap(x, ps);
    } else {
      var init, a := ps[..|ps| - 1], ps[|ps| - 1];
      PageGain(Pages(From(x), init), a.page, a.notToSwap);
      OddWrapLoses(x, init);
    }
  }

  lemma ConservedTotal(x: Path, s: seq<Byte>, os: seq<bool>, o: nat, m: nat)
    requires Conserves(x, s, os, o, m)
    ensures Total(x) <= |s| && x.write == Pos(o, m) && x.nextRead + Left(m) == x.write
  {
    hide Mixed, NoNewlines, Pos;
    AllKept(Mixed(s, os));
    QuadsOf(|s|);
  }

  lemma KeptTotal(x: Path, ps: seq<Arrival>)
    requires InBounds(x) && Kept(x, ps) && Plain(Mixed(Sent(ps), Orders(ps)))
    ensures Total(Pages(From(x), ps)) == PAYLOAD_BYTES_PER_PAGE * |ps|
  {
    hide Pages, Mixed, Plain, Orders, Sent;
    AllKept(Mixed(Sent(ps), Orders(ps)));
    QuadsOf(|Sent(ps)|);
  }

  /** With nothing left to write, or the read pointer ahead, and no newline pattern among the words: the pages are kept
      if and only if nothing is left and the wraps come after whole words. */
  lemma KeptPlainIff(x: Path, ps: seq<Arrival>)
    requires InBounds(x) && x.nextRead >= x.write && ps != [] && AllFull(From(x), ps)
    requires Plain(Mixed(Sent(ps), Orders(ps)))
    ensures Kept(x, ps) <==> x.nextRead == x.write && Fits(x.write, |ps|)
  {
    hide Kept, Pages, AllFull, Mixed, Plain, Orders, Sent, Total, Fits, Conserves;
    if x.nextRead > x.write {
      AheadLoses(x, ps);
    } else if Fits(x.write, |ps|) {
      SoundConserves(x, ps);
      ConservesKept(x, ps, x.write, |ps|);
    } else {
      OddWrapLoses(x, ps);
    }
    if Kept(x, ps) {
      KeptTotal(x, ps);
    }
  }

  // ---- A page of ones behind a buffer of twos ----

  function Same(n: nat, b: Byte): (s: seq<Byte>)
    ensures |s| == n && forall k | 0 <= k < n :: s[k] == b
  {
    seq(n, _ => b)
  }

  function OnesPage(c: bv4): (p: Page)
    ensures |p| == LINES_PER_PAGE
  {
    Words([c as Byte] + Same(PAYLOAD_BYTES_PER_PAGE, 1) + [c as Byte], true)
  }

  lemma CounterCast(c: bv4)
    ensures Counter(c as Byte) == c && !MarksLast(c as Byte) && c + 1 != c
  {
  }

  lemma OnesPageIs(c: bv4)
    ensures Payload(OnesPage(c)) == Same(PAYLOAD_BYTES_PER_PAGE, 1)
    ensures Header(OnesPage(c)) == Footer(OnesPage(c)) == c as Byte
  {
    hide Words, UnpackAll;
    var s := [c as Byte] + Same(PAYLOAD_BYTES_PER_PAGE, 1) + [c as Byte];
    UnpackWords(s, true);
    assert PageBytes(OnesPage(c)) == s;
  }

  lemma OnesPageIsFull(c: bv4)
    ensures Check(OnesPage(c + 1), c).FullPage?
  {
    OnesPageIs(c + 1);
    CounterCast(c + 1);
    CounterCast(c);
    hide Counter, MarksLast, OnesPage, Header, Footer;
  }

  function OnesPages(x: Path, m: nat): (ps: seq<Arrival>)
    requires InBounds(x)
    ensures |ps| == m
  {
    if m == 0 then [] else
      var init := OnesPages(x, m - 1);
      init + [Arrival(OnesPage(Pages(From(x), init).pageCnt + 1), false)]
  }

  lemma {:induction false} OnesPagesFull(x: Path, m: nat)
    requires InBounds(x)
    ensures AllFull(From(x), OnesPages(x, m))
  {
    hide Check, Pages, OnesPage;
    if m > 0 {
      OnesPagesFull(x, m - 1);
      var init := OnesPages(x, m - 1);
      assert OnesPages(x, m)[..m - 1] == init;
      OnesPageIsFull(Pages(From(x), init).pageCnt);
    }
  }

  predicate AllOnes(s: seq<Byte>) {
    forall k | 0 <= k < |s| :: s[k] == 1
  }

  lemma {:induction false} OnesSent(x: Path, m: nat)
    requires InBounds(x)
    ensures AllOnes(Sent(OnesPages(x, m)))
  {
    hide Pages, OnesPage, Payload;
    if m > 0 {
      var init := OnesPages(x, m - 1);
      OnesSent(x, m - 1);
      assert OnesPages(x, m)[..m - 1] == init;
      OnesPageIs(Pages(From(x), init).pageCnt + 1);
    }
  }

  /** A word that begins with another byte than CR or LF is no newline pattern. */
  lemma NotNewline(b: seq<Byte>, notToSwap: bool)
    requires |b| == 4 && (b[0] == 1 || b[0] == 2)
    ensures !IsNewline(Pack(b, notToSwap))
  {
    UnpackPack(b, notToSwap);
    NewlineBytes(notToSwap);
    hide Pack, Unpack;
  }

  lemma NewlineBytes(notToSwap: bool)
    ensures var f, g := Unpack(0x0d0a0d0a, notToSwap)[0], Unpack(0x0a0d0a0d, notToSwap)[0];
            f != 1 && f != 2 && g != 1 && g != 2
  {
  }

  lemma {:induction false} OnesPlain(s: seq<Byte>, os: seq<bool>)
    requires |os| == |s| / 4 && AllOnes(s)
    ensures Plain(Mixed(s, os))
  {
    hide Pack, IsNewline;
    if |s| >= 4 {
      NotNewline(s[..4], os[0]);
      OnesPlain(s[4..], os[1..]);
    }
  }

  lemma {:induction false} FirstStays(ws: seq<Word>)
    requires ws != [] && !IsNewline(ws[0])
    ensures |NoNewlines(ws)| > 0 && NoNewlines(ws)[0] == ws[0]
  {
    hide IsNewline;
    if |ws| > 1 {
      FirstStays(ws[..|ws| - 1]);
    } else {
      assert ws[..0] == [];
    }
  }

  /** The first word that leaves stays the first. */
  lemma {:induction false} FirstWordKept(x: Path, ps: seq<Arrival>)
    requires InBounds(x) && ps != [] && |Pages(x, ps[..1]).hwicap| > 0
    ensures |Pages(x, ps).hwicap| > 0 && Pages(x, ps).hwicap[0] == Pages(x, ps[..1]).hwicap[0]
  {
    if |ps| == 1 {
      assert ps[..1] == ps;
    } else {
      hide Copied, Written;
      var init, a := ps[..|ps| - 1], ps[|ps| - 1];
      assert init[..1] == ps[..1];
      FirstWordKept(x, init);
      OnlyAppends(Pages(x, init), a.page, a.notToSwap);
    }
  }

  lemma OnlyAppends(x: Path, p: Page, notToSwap: bool)
    requires InBounds(x)
    ensures x.hwicap <= Written(Copied(x, p, PAYLOAD_BYTES_PER_PAGE), notToSwap).hwicap
  {
    hide Check, Payload, Words, NoNewlines, Available;
  }

  lemma StaleOffered(x: Path, p: Page)
    requires InBounds(x) && x.nextRead < x.write && x.buf[x.nextRead] == 2
    ensures |Offered(x, p)| >= 4 && Offered(x, p)[0] == 2
  {
    hide Payload;
  }

  /** The first word of bytes that begin with a two. */
  lemma TwoLeads(s: seq<Byte>, notToSwap: bool)
    requires |s| >= 4 && s[0] == 2
    ensures var ws := NoNewlines(Words(s, notToSwap)); |ws| > 0 && ws[0] == Pack(s[..4], notToSwap)
  {
    hide Words, NoNewlines, Pack, IsNewline;
    WordsFirst(s, notToSwap);
    NotNewline(s[..4], notToSwap);
    FirstStays(Words(s, notToSwap));
  }

  /** A byte left in the buffer leads the first word. */
  lemma StaleLeads(x: Path, ps: seq<Arrival>) returns (b: seq<Byte>)
    requires InBounds(x) && x.nextRead < x.write && x.buf[x.nextRead] == 2 && ps != [] && AllFull(From(x), ps[..1])
    ensures var y := Pages(From(x), ps[..1]);
            |y.hwicap| > 0 && |b| == 4 && b[0] == 2 && y.hwicap[0] == Pack(b, ps[0].notToSwap)
  {
    var z, a := From(x), ps[0];
    hide Pages, AllFull, Check, Payload, Copied, Written, Words, NoNewlines, Pack, Offered;
    FirstArrival(z, ps);
    FullPageWrites(z, a.page, PAYLOAD_BYTES_PER_PAGE, a.notToSwap);
    StaleOffered(z, a.page);
    TwoLeads(Offered(z, a.page), a.notToSwap);
    b := Offered(z, a.page)[..4];
  }

  lemma WordsFirst(s: seq<Byte>, notToSwap: bool)
    requires |s| >= 4
    ensures |Words(s, notToSwap)| > 0 && Words(s, notToSwap)[0] == Pack(s[..4], notToSwap)
  {
  }

  lemma FirstArrival(x: Path, ps: seq<Arrival>)
    requires InBounds(x) && ps != [] && AllFull(x, ps[..1])
    ensures Check(ps[0].page, x.pageCnt).FullPage?
    ensures Pages(x, ps[..1]) == Written(Copied(x, ps[0].page, PAYLOAD_BYTES_PER_PAGE), ps[0].notToSwap)
  {
    hide Check, Copied, Written;
    assert ps[..1][..0] == [] && ps[..1][0] == ps[0];
    assert Pages(x, []) == x;
  }

  lemma TwoDiffers(b: seq<Byte>, c: seq<Byte>, p: bool, q: bool)
    requires |b| == |c| == 4 && b[0] == 2 && AllOnes(c)
    ensures Pack(b, p) != Pack(c, q)
  {
    UnpackPack(b, p);
    OnesSymmetric(c, p, q);
    UnpackPack(c, p);
    hide Pack, Unpack;
  }

  lemma OnesSymmetric(c: seq<Byte>, p: bool, q: bool)
    requires |c| == 4 && AllOnes(c)
    ensures Pack(c, p) == Pack(c, q)
  {
    hide Join;
  }

  lemma {:induction false} FullFirst(x: Path, ps: seq<Arrival>)
    requires InBounds(x) && ps != [] && AllFull(x, ps)
    ensures AllFull(x, ps[..1])
  {
    hide Check, Pages;
    if |ps| == 1 {
      assert ps[..1] == ps;
    } else {
      var init := ps[..|ps| - 1];
      assert init[..1] == ps[..1];
      FullFirst(x, init);
    }
  }

  /** The first word of the pages of ones. */
  lemma OnesFirst(s: seq<Byte>, os: seq<bool>)
    requires |os| == |s| / 4 && |s| >= 4 && AllOnes(s)
    ensures NoNewlines(Mixed(s, os)) == Mixed(s, os) && Mixed(s, os)[0] == Pack(s[..4], os[0]) && AllOnes(s[..4])
  {
    OnesSlice(s);
    hide *;
    OnesPlain(s, os);
    AllKept(Mixed(s, os));
    PlainAll(Mixed(s, os));
    MixedNext(s, os);
  }

  lemma OnesSlice(s: seq<Byte>)
    requires |s| >= 4 && AllOnes(s)
    ensures AllOnes(s[..4])
  {
  }

  lemma PlainAll(ws: seq<Word>)
    requires Plain(ws)
    ensures NoNewlines(ws) == ws
  {
    AllKept(ws);
    hide NoNewlines, Plain;
  }

  /** Pages of ones behind a byte two are not kept. */
  lemma StaleNotKept(x: Path, ps: seq<Arrival>)
    requires InBounds(x) && x.nextRead < x.write && x.buf[x.nextRead] == 2 && ps != [] && AllFull(From(x), ps)
    requires AllOnes(Sent(ps))
    ensures !Kept(x, ps)
  {
    hide *;
    var s, os := Sent(ps), Orders(ps);
    FromIs(x);
    FullFirst(From(x), ps);
    var b := StaleLeads(x, ps);
    FirstWordKept(From(x), ps);
    LongEnough(ps);
    OnesFirst(s, os);
    TwoDiffers(b, s[..4], ps[0].notToSwap, os[0]);
    if Kept(x, ps) {
      KeptMeans(x, ps);
    }
  }

  lemma LongEnough(ps: seq<Arrival>)
    requires ps != []
    ensures |Sent(ps)| >= 4
  {
    hide Sent;
  }

  lemma FromIs(x: Path)
    requires InBounds(x)
    ensures InBounds(From(x))
  {
  }

  lemma KeptMeans(x: Path, ps: seq<Arrival>)
    requires InBounds(x) && Kept(x, ps)
    ensures Pages(From(x), ps).hwicap == NoNewlines(Mixed(Sent(ps), Orders(ps)))
  {
  }

  /** Whatever the buffer and the pages hold, `m` pages from these pointers are kept. */
  ghost predicate AlwaysKept(write: nat, nextRead: nat, m: nat) {
    forall x: Path, ps: seq<Arrival> ::
      InBounds(x) && x.write == write && x.nextRead == nextRead && |ps| == m && AllFull(From(x), ps) ==> Kept(x, ps)
  }

  /** A transfer conserves its full pages, whatever they and the buffer hold, if and only if it begins with nothing
      left to write and, once the buffer wraps, the pages up to the first wrap are whole words. */
  lemma KeptIff(write: nat, nextRead: nat, m: nat)
    requires write < WRAP_AT && nextRead < WRAP_AT && nextRead % 4 == 0 && m > 0
    ensures AlwaysKept(write, nextRead, m) <==> nextRead == write && Fits(write, m)
  {
    hide AllFull, Kept, Fits, OnesPages, Conserves, Pages, Sent, Orders;
    if nextRead == write && Fits(write, m) {
      forall x: Path, ps: seq<Arrival> |
        InBounds(x) && x.write == write && x.nextRead == nextRead && |ps| == m && AllFull(From(x), ps)
        ensures Kept(x, ps)
      {
        SoundConserves(x, ps);
        ConservesKept(x, ps, write, m);
      }
    } else {
      var x := Path(Same(IN_BUFFER_SIZE, 2), write, nextRead, 0, 0xf, []);
      var ps := OnesPages(x, m);
      OnesPagesFull(x, m);
      OnesSent(x, m);
      if nextRead < write {
        StaleNotKept(x, ps);
      } else {
        OnesPlain(Sent(ps), Orders(ps));
        KeptPlainIff(x, ps);
      }
      assert !Kept(x, ps);
    }
  }
}
