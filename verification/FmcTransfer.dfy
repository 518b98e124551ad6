/** The host and the management core together: over every schedule of line writes and calls, the HWICAP receives the
    words of a prefix of the payload that the host sends. */
module FmcTransfer {
  import opened HwicapWords
  import opened XmemPath
  import opened XmemTransfer
  import opened FmcPlan
  import opened FmcSafety

  type Count7 = n: nat | n < 128

  /** The host writes a line or moves on to the next page, or the core is called while the host requests a transfer. The
      last-page count and the byte order are what the host's register holds in that call. */
  datatype Happening =
    | HostWrites
    | HostAdvances
    | CoreCalled(lastPageCnt: Count7, notToSwap: bool, eos: bool, abortFlag: bool)

  /** The host, the core, and the last-page count with which each page was accepted. */
  datatype Joint = Joint(h: Host, w: World, counts: seq<nat>)

  function InputOf(h: Host, x: Happening): (i: Input)
    requires x.CoreCalled?
  {
    CallInput(h.mem, x.lastPageCnt, x.notToSwap, x.eos, false, true, x.abortFlag)
  }

  /** A call that runs the plan polls the memory. */
  function Happens(j: Joint, x: Happening): (r: Joint)
    requires InBounds(j.w.core.x)
    ensures InBounds(r.w.core.x)
  {
    match x
    case HostWrites => j.(h := Next(j.h, WriteLine))
    case HostAdvances => j.(h := Next(j.h, NextPage))
    case CoreCalled(n, _, _, _) =>
      var i := InputOf(j.h, x);
      if Runs(j.w, i) then
        Joint(Next(j.h, Poll), Call(j.w, i), if Accepts(Check(j.h.mem, j.h.pageCnt)) then j.counts + [n] else j.counts)
      else j.(w := Call(j.w, i))
  }

  function History(j: Joint, xs: seq<Happening>): (r: Joint)
    requires InBounds(j.w.core.x)
    ensures InBounds(r.w.core.x)
  {
    if xs == [] then j else Happens(History(j, xs[..|xs| - 1]), xs[|xs| - 1])
  }

  /** The payload of the pages: 126 bytes each, what the count says for one that is marked as the last. */
  function Delivered(pages: seq<Page>, counts: seq<nat>): seq<Byte>
    requires |pages| == |counts|
  {
    if pages == [] then [] else
      var m := |pages| - 1;
      Delivered(pages[..m], counts[..m])
      + Bytes(pages[m], if MarksLast(Header(pages[m])) then counts[m] else PAYLOAD_BYTES_PER_PAGE)
  }

  lemma DeliveredNext(pages: seq<Page>, counts: seq<nat>, p: Page, n: nat)
    requires |pages| == |counts|
    ensures Delivered(pages + [p], counts + [n])
            == Delivered(pages, counts) + Bytes(p, if MarksLast(Header(p)) then n else PAYLOAD_BYTES_PER_PAGE)
  {
    hide Payload, MarksLast, Header;
    assert (pages + [p])[..|pages|] == pages && (counts + [n])[..|counts|] == counts;
  }

  lemma NothingDelivered()
    ensures Delivered([], []) == []
  {
  }

  /** The core has the host's page count, and has accepted what the host's pages deliver. */
  ghost predicate InStep(j: Joint) {
    && |j.counts| == |j.h.accepted|
    && if j.w.transferring then
         j.w.core.x.pageCnt == j.h.pageCnt && j.w.core.log.accepted == Delivered(j.h.accepted, j.counts)
       else j.h.accepted == [] && j.h.pageCnt == 0xf
  }

  /** The poll of a running call and the host's view of it. */
  lemma PollInStep(h: Host, counts: seq<nat>, s: Core, r: Core, i: Input)
    requires InBounds(s.x) && Outcome(s, r, i) && i.xmem == h.mem && |counts| == |h.accepted|
    requires s.x.pageCnt == h.pageCnt && s.log.accepted == Delivered(h.accepted, counts)
    ensures var g := Next(h, Poll);
            var more := if Accepts(Check(h.mem, h.pageCnt)) then counts + [i.lastPageCnt] else counts;
            |more| == |g.accepted| && r.x.pageCnt == g.pageCnt && r.log.accepted == Delivered(g.accepted, more)
  {
    hide Payload, MarksLast, Header, Footer, Counter, Words, NoNewlines, Delivered, Available, Extended, Bytes;
    DeliveredNext(h.accepted, counts, h.mem, i.lastPageCnt);
    assert s.log.accepted + [] == s.log.accepted;
  }

  lemma StaysInStep(j: Joint, x: Happening)
    requires Inv(j.w) && InStep(j)
    ensures InStep(Happens(j, x))
  {
    hide Call, Check, Conserves, Complete, Outcome, PlanStart, Delivered, InBounds;
    if x.CoreCalled? {
      var i := InputOf(j.h, x);
      NothingDelivered();
      if Runs(j.w, i) {
        CallRuns(j.w, i);
        ClearKeeps(j.w, i);
        PollInStep(j.h, j.counts, PlanStart(j.w, i), Call(j.w, i).core, i);
      } else {
        CallIdles(j.w, i);
        CallKeepsCount(j.w, i);
      }
    }
  }

  lemma CallKeepsCount(w: World, i: Input)
    requires InBounds(w.core.x) && !Runs(w, i) && !i.reset && i.start
    ensures Call(w, i).core.x.pageCnt == if w.transferring then w.core.x.pageCnt else 0xf
  {
    hide InBounds;
  }

  lemma {:induction false} AlwaysInStep(pages: seq<Page>, stale: Page, w: World, xs: seq<Happening>)
    requires Numbered(pages) && Counter(Footer(stale)) != 0 && PowerUp(w)
    ensures var r := History(Joint(Start(pages, stale), w, []), xs);
            HostInv(r.h) && r.h.pages == pages && Inv(r.w) && InStep(r)
  {
    hide Next, Call, HostInv, Inv, InStep, Start, Numbered, Counter, Footer, Check;
    if xs == [] {
      StartKeeps(pages, stale);
      StartsInStep(pages, stale, w);
    } else {
      var x := xs[|xs| - 1];
      AlwaysInStep(pages, stale, w, xs[..|xs| - 1]);
      var j := History(Joint(Start(pages, stale), w, []), xs[..|xs| - 1]);
      StaysInStep(j, x);
      StepKeeps(j.h, WriteLine);
      StepKeeps(j.h, NextPage);
      StepKeeps(j.h, Poll);
      if x.CoreCalled? {
        InvKept(j.w, InputOf(j.h, x));
      }
    }
  }

  lemma StartsInStep(pages: seq<Page>, stale: Page, w: World)
    requires PowerUp(w)
    ensures Inv(w) && InStep(Joint(Start(pages, stale), w, []))
  {
    hide InBounds, Conserves, Complete;
  }

  /** Over every schedule of the host's writes and the core's calls: the bytes accepted are those of a prefix of the
      host's pages. In a transfer that has not failed and that began with nothing left to write, or with a cleared
      buffer, and whose wraps come after whole words: the words written are those of these bytes, and what is not yet
      a whole word is in the buffer. */
  lemma TransferDeliversPrefix(pages: seq<Page>, stale: Page, w: World, xs: seq<Happening>)
    requires Numbered(pages) && Counter(Footer(stale)) != 0 && PowerUp(w)
    ensures var r := History(Joint(Start(pages, stale), w, []), xs);
            var (h, c, l) := (r.h, r.w.core, r.w.core.log);
            h.accepted <= pages && |r.counts| == |h.accepted|
            && (r.w.transferring ==> l.accepted == Delivered(h.accepted, r.counts) && (l.clean ==> Sound(l)))
            && (r.w.transferring && Sound(l) && !c.error ==>
                  && l.base <= |c.x.hwicap|
                  && if r.w.done then Complete(Recent(c).hwicap, l.accepted, l.orders, l.origin)
                     else Conserves(Recent(c), l.accepted, l.orders, l.origin, l.pages))
  {
    hide History, Happens, HostInv, Numbered, Counter, Footer, Conserves, Complete, Delivered, Sound;
    AlwaysInStep(pages, stale, w, xs);
    var r := History(Joint(Start(pages, stale), w, []), xs);
    InvMeans(r.h);
    if r.w.transferring && r.w.core.log.clean {
      CleanIsSound(r.w);
    }
  }
}
