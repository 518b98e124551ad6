/** Safety of the extended-memory transfer over all runs of calls: decoupling, aborting, and conservation of the
    accepted bytes. */
module FmcSafety {
  import opened HwicapWords
  import opened XmemPath
  import opened XmemTransfer
  import opened FmcPlan
  import N = NalLink

  lemma RunSkips(prog: seq<Instr>, pc: nat, s: Core, i: Input)
    requires InBounds(s.x) && pc < |prog| && prog[pc].mask & s.rv == 0
    ensures RunFrom(prog, pc, s, i) == RunFrom(prog, pc + 1, Skip(s), i)
  {
  }

  lemma RunDoes(prog: seq<Instr>, pc: nat, s: Core, i: Input)
    requires InBounds(s.x) && pc < |prog| && prog[pc].mask & s.rv != 0 && !prog[pc].op.Exit?
    ensures RunFrom(prog, pc, s, i)
            == RunFrom(prog, pc + 1, OpStep(prog[pc].op, s, i), i)
  {
  }

  lemma RunExits(prog: seq<Instr>, pc: nat, s: Core, i: Input)
    requires InBounds(s.x) && (pc >= |prog| || (prog[pc].mask & s.rv != 0 && prog[pc].op.Exit?))
    ensures RunFrom(prog, pc, s, i) == s
  {
  }

  /** The plan up to the copy: decoupling is active before any word can be written. */
  lemma PlanCopies(s: Core, i: Input)
    requires InBounds(s.x) && s.rv == OPRV_OK && !s.silent
    ensures var b := Check(i.xmem, s.x.pageCnt);
            var c := s.(x := Copied(s.x, i.xmem, i.lastPageCnt), rv := ReturnOf(b), silent := true,
                        lastPage := b.LastPage?, toDecoup := true, log := AcceptedLog(s.log, s.x, i));
            RunFrom(PLAN, 0, s, i) == RunFrom(PLAN, 3, c, i)
  {
    hide RunFrom, Check, Copied, NewBytes, AcceptedLog;
    var s1 := s.(toDecoup := true);
    RunDoes(PLAN, 0, s, i);
    RunDoes(PLAN, 1, s1, i);
    RunDoes(PLAN, 2, OpStep(XmemCopyData, s1, i), i);
  }

  /** From the write on, silently skipping: done or to be continued. */
  lemma PlanPauses(c: Core, i: Input)
    requires InBounds(c.x) && c.silent && (c.rv == OPRV_NOT_COMPLETE || c.rv == OPRV_DONE)
    ensures RunFrom(PLAN, 4, c, i) 
            == if c.rv == OPRV_DONE then c.(toDecoup := false, table := N.ClearedRouting(c.table)) else c
  {
    hide RunFrom, InBounds, N.ClearedRouting;
    if c.rv == OPRV_NOT_COMPLETE {
      RunExits(PLAN, 4, c, i);
    } else {
      var d := c.(toDecoup := false);
      RunSkips(PLAN, 4, c, i);
      RunDoes(PLAN, 5, c, i);
      RunDoes(PLAN, 6, d, i);
      RunExits(PLAN, 7, d.(table := N.ClearedRouting(c.table)), i);
    }
  }

  /** From the write on: a failure aborts, a page in transfer ends the call. */
  lemma PlanFails(c: Core, i: Input)
    requires InBounds(c.x) && c.silent && (c.rv == OPRV_FAIL || c.rv == OPRV_PARTIAL_COMPLETE)
    ensures RunFrom(PLAN, 4, c, i)
            == if c.rv == OPRV_FAIL then
                 c.(silent := false, aborts := c.aborts + 1, error := true, wasAbort := true)
               else c.(silent := false, rv := OPRV_SKIPPED)
  {
    hide RunFrom, InBounds;
    NotDone(c, i);
    var d := c.(silent := false);
    if c.rv == OPRV_FAIL {
      var a := d.(aborts := c.aborts + 1, error := true, wasAbort := true, rv := OPRV_OK);
      RunDoes(PLAN, 9, d, i);
      RunDoes(PLAN, 10, a, i);
      RunExits(PLAN, 11, a.(rv := OPRV_FAIL), i);
    } else {
      var k := d.(rv := OPRV_SKIPPED);
      RunSkips(PLAN, 9, d, i);
      RunSkips(PLAN, 10, k, i);
      RunSkips(PLAN, 11, k, i);
      RunExits(PLAN, 12, k, i);
    }
  }

  /** Neither the exits nor the steps of a finished transfer apply. */
  lemma NotDone(c: Core, i: Input)
    requires InBounds(c.x) && c.silent && (c.rv == OPRV_FAIL || c.rv == OPRV_PARTIAL_COMPLETE)
    ensures RunFrom(PLAN, 4, c, i) == RunFrom(PLAN, 9, c.(silent := false), i)
  {
    hide RunFrom, InBounds;
    RunSkips(PLAN, 4, c, i);
    RunSkips(PLAN, 5, c, i);
    RunSkips(PLAN, 6, c, i);
    RunSkips(PLAN, 7, c, i);
    RunDoes(PLAN, 8, c, i);
  }

  /** The return value of a write that is not the last: not complete if and only if it had no whole word to take, or
      took the whole buffer from its start in one turn. */
  lemma WriteReturnTells(s: Core, i: Input)
    requires InBounds(s.x) && i.eos && s.rv != OPRV_DONE && !s.lastPage
    ensures var r, n := OpStep(BufferToHwicap, s, i).rv, |Words(Available(s.x), i.notToSwap)|;
            && (r == OPRV_NOT_COMPLETE <==> n == 0 || (s.x.nextRead == 0 && 4 * n >= WRAP_AT))
            && (r == OPRV_OK <==> r != OPRV_NOT_COMPLETE)
  {
    hide Words, Available, NoNewlines, WrittenLog;
  }

  /** A call fails on a counter mismatch, and on an accepted page while the HWICAP is not accessible. */
  predicate Fails(b: Burst, i: Input) {
    b.Mismatch? || (Accepts(b) && !i.eos)
  }

  /** The write would leave the buffer: a last page without bytes at its start. */
  predicate Overruns(x: Path, i: Input) {
    Check(i.xmem, x.pageCnt).LastPage? && i.eos && x.write == 0 && i.lastPageCnt == 0
  }

  lemma CopiedEnd(x: Path, i: Input)
    requires InBounds(x) && Accepts(Check(i.xmem, x.pageCnt))
    ensures Copied(x, i.xmem, i.lastPageCnt).maxWrite >= IN_BUFFER_SIZE
            <==> Check(i.xmem, x.pageCnt).LastPage? && x.write == 0 && i.lastPageCnt == 0
  {
    hide Check, Payload;
  }

  /** What one run of the plan does, in terms of the page it finds. */
  ghost predicate Outcome(s: Core, r: Core, i: Input)
    requires InBounds(s.x)
  {
    var b := Check(i.xmem, s.x.pageCnt);
    var c := Copied(s.x, i.xmem, i.lastPageCnt);
    && r.x == (if Accepts(b) && i.eos then Written(c, i.notToSwap) else c)
    && r.log == AcceptedLog(s.log, s.x, i).(overrun := s.log.overrun || Overruns(s.x, i))
    && (r.toDecoup <==> !(b.LastPage? && i.eos))
    && r.error == (s.error || Fails(b, i)) && r.wasAbort == (s.wasAbort || Fails(b, i))
    && r.aborts == s.aborts + (if Fails(b, i) then 1 else 0)
    && (r.rv == OPRV_DONE <==> b.LastPage? && i.eos) && (r.rv == OPRV_FAIL <==> Fails(b, i))
    && r.table == (if b.LastPage? && i.eos then N.ClearedRouting(s.table) else s.table)
  }

  lemma PlanOutcome(s: Core, i: Input)
    requires InBounds(s.x) && s.rv == OPRV_OK && !s.silent
    ensures Outcome(s, RunFrom(PLAN, 0, s, i), i)
  {
    hide RunFrom, Check, Copied, NewBytes, Written, Available, Words, NoNewlines, InBounds, AcceptedLog;
    PlanCopies(s, i);
    var b := Check(i.xmem, s.x.pageCnt);
    var c := s.(x := Copied(s.x, i.xmem, i.lastPageCnt), rv := ReturnOf(b), silent := true,
                lastPage := b.LastPage?, toDecoup := true, log := AcceptedLog(s.log, s.x, i));
    AcceptedOverrun(s.log, s.x, i);
    if Accepts(b) {
      CopiedEnd(s.x, i);
      WriteOutcome(c, i);
    } else {
      RunSkips(PLAN, 3, c, i);
      if b.UpToDate? {
        PlanPauses(c, i);
      } else {
        PlanFails(c, i);
      }
    }
  }

  /** The plan from the write of an accepted page. */
  lemma WriteOutcome(c: Core, i: Input)
    requires InBounds(c.x) && c.silent && c.toDecoup && (c.rv == OPRV_OK || c.rv == OPRV_DONE)
    requires c.lastPage == (c.rv == OPRV_DONE)
    ensures var r := RunFrom(PLAN, 3, c, i);
            && r.x == (if i.eos then Written(c.x, i.notToSwap) else c.x)
            && r.log == c.log.(overrun := c.log.overrun || (i.eos && c.x.maxWrite >= IN_BUFFER_SIZE))
            && (r.toDecoup <==> !(c.lastPage && i.eos))
            && r.error == (c.error || !i.eos) && r.wasAbort == (c.wasAbort || !i.eos)
            && r.aborts == c.aborts + (if i.eos then 0 else 1)
            && (r.rv == OPRV_DONE <==> c.lastPage && i.eos) && (r.rv == OPRV_FAIL <==> !i.eos)
            && r.table == (if c.lastPage && i.eos then N.ClearedRouting(c.table) else c.table)
  {
    hide RunFrom, Written, InBounds;
    RunDoes(PLAN, 3, c, i);
    var d := OpStep(BufferToHwicap, c, i);
    if d.rv == OPRV_OK {
      RunExits(PLAN, 4, d, i);
    } else if d.rv == OPRV_FAIL {
      PlanFails(d, i);
    } else {
      PlanPauses(d, i);
    }
  }

  /** The first call of a transfer clears the buffer and then runs the same plan. */
  lemma FirstPlan(s: Core, i: Input)
    requires InBounds(s.x) && s.rv == OPRV_OK && !s.silent
    ensures RunFrom([FIRST] + PLAN, 0, s, i)
            == RunFrom(PLAN, 0, OpStep(ClearInBuffer, s, i), i)
  {
    hide RunFrom;
    RunDoes([FIRST] + PLAN, 0, s, i);
    RunShift(FIRST, PLAN, 0, OpStep(ClearInBuffer, s, i), i);
  }

  lemma {:induction false} RunShift(a: Instr, prog: seq<Instr>, pc: nat, s: Core, i: Input)
    requires InBounds(s.x)
    ensures RunFrom([a] + prog, pc + 1, s, i) == RunFrom(prog, pc, s, i)
    decreases |prog| - pc
  {
    hide OpStep, InBounds;
    if pc < |prog| {
      assert ([a] + prog)[pc + 1] == prog[pc];
      RunShift(a, prog, pc + 1, Skip(s), i);
      RunShift(a, prog, pc + 1, OpStep(prog[pc].op, s, i), i);
    }
  }

  /** The program runs in this call. */
  predicate Runs(w: World, i: Input) {
    !i.reset && !i.abortFlag && if w.transferring then !w.done && !w.core.error else i.start
  }

  /** The state in which the plan proper starts: the first call of a transfer clears the buffer. */
  function PlanStart(w: World, i: Input): (s: Core)
    requires InBounds(w.core.x)
    ensures InBounds(s.x)
  {
    var p := Plan(w, i).0.core.(rv := OPRV_OK, silent := false, wasAbort := i.abortFlag);
    if w.transferring then p else OpStep(ClearInBuffer, p, i)
  }

  lemma StartsWithOk(w: World, i: Input)
    requires InBounds(w.core.x)
    ensures PlanStart(w, i).rv == OPRV_OK && !PlanStart(w, i).silent
  {
    hide InBounds;
  }

  /** A call that runs the plan. */
  lemma CallRuns(w: World, i: Input)
    requires InBounds(w.core.x) && Runs(w, i)
    ensures var s, r := PlanStart(w, i), Call(w, i);
            && Outcome(s, r.core, i)
            && r.transferring && r.done == (Check(i.xmem, s.x.pageCnt).LastPage? && i.eos)
            && r.port == (r.core.toDecoup || r.core.wasAbort)
  {
    hide RunFrom, OpStep, Check, Copied, Written, NewBytes, InBounds;
    var s := PlanStart(w, i);
    var p := Plan(w, i).0.core.(rv := OPRV_OK, silent := false, wasAbort := i.abortFlag);
    StartsWithOk(w, i);
    PlanOutcome(s, i);
    if !w.transferring {
      FirstPlan(p, i);
    }
  }

  /** A call that runs nothing leaves the buffer, the HWICAP and the decoupling as they are. */
  lemma CallIdles(w: World, i: Input)
    requires InBounds(w.core.x) && !Runs(w, i)
    ensures var r := Call(w, i);
            && r.core.x.(pageCnt := w.core.x.pageCnt) == w.core.x && r.core.toDecoup == w.core.toDecoup
            && r.core.aborts == w.core.aborts && r.core.table == w.core.table
            && r.core.log
                == (if !w.transferring && r.transferring then FreshLog(w.core.log, w.core.x, false) else w.core.log)
            && (r.core.error ==> w.core.error && !i.reset) && (r.done ==> w.done && !i.reset)
            && (w.transferring && !i.reset ==> r.core.error == w.core.error && r.done == w.done)
            && r.transferring == (!i.reset && if w.transferring && !w.done then true else i.start)
            && (!w.transferring ==> !r.done && !r.core.error)
            && r.port == (r.core.toDecoup || i.abortFlag)
  {
    hide InBounds, FreshLog;
  }

  /** Every word is written while the role is held decoupled. */
  lemma WritesAreDecoupled(w: World, i: Input)
    requires InBounds(w.core.x)
    ensures Call(w, i).core.log.exposed == w.core.log.exposed
  {
    hide Call, Plan, Check, Copied, Written, NewBytes, InBounds;
    if Runs(w, i) {
      CallRuns(w, i);
      ClearKeeps(w, i);
    } else {
      CallIdles(w, i);
    }
  }

  lemma ClearKeeps(w: World, i: Input)
    requires InBounds(w.core.x) && Runs(w, i)
    ensures var s := PlanStart(w, i);
            && s.aborts == w.core.aborts && s.toDecoup == w.core.toDecoup
            && s.x.hwicap == w.core.x.hwicap && !s.error && s.table == w.core.table
            && (if w.transferring then s.x == w.core.x && s.log == w.core.log
                else s.x == Path(ZeroBuffer(), 0, 0, 0, 0xf, w.core.x.hwicap)
                     && s.log == Log([], 0, [], |w.core.x.hwicap|, 0, true, true, w.core.log.exposed,
                         w.core.log.overrun))
  {
    hide InBounds;
  }

  /** After a call the role is released exactly if the call accepted the last page and wrote it, or ran nothing
      and found the role released. */
  lemma DecouplingDrops(w: World, i: Input)
    requires InBounds(w.core.x)
    ensures !Call(w, i).core.toDecoup
            <==> if Runs(w, i) then Check(i.xmem, PlanStart(w, i).x.pageCnt).LastPage? && i.eos
                 else !w.core.toDecoup
  {
    hide Call, Plan, Check, Copied, Written, NewBytes, InBounds, PlanStart;
    if Runs(w, i) {
      CallRuns(w, i);
    } else {
      CallIdles(w, i);
    }
  }

  /** The routing table is cleared, with a new version to hand over, exactly by the call that finishes a transfer. */
  lemma FinishClearsTable(w: World, i: Input)
    requires InBounds(w.core.x)
    ensures var r := Call(w, i);
            r.core.table == if Runs(w, i) && r.done then N.ClearedRouting(w.core.table) else w.core.table
  {
    hide Call, Plan, Check, Copied, Written, NewBytes, InBounds, PlanStart, N.ClearedRouting;
    if Runs(w, i) {
      CallRuns(w, i);
      ClearKeeps(w, i);
    } else {
      CallIdles(w, i);
    }
  }

  /** A failing call issues one abort and keeps the role decoupled; no other call issues an abort. */
  lemma FailureAborts(w: World, i: Input)
    requires InBounds(w.core.x)
    ensures var r := Call(w, i);
            var fails := Runs(w, i) && Fails(Check(i.xmem, PlanStart(w, i).x.pageCnt), i);
            && r.core.aborts == w.core.aborts + (if fails then 1 else 0)
            && (fails ==>
                  && r.transferring && r.core.error && !r.done && r.core.toDecoup && r.port
                  && r.core.x.hwicap == w.core.x.hwicap)
  {
    hide Call, Plan, Check, Copied, Written, NewBytes, InBounds, PlanStart;
    if Runs(w, i) {
      CallRuns(w, i);
      ClearKeeps(w, i);
      CopyWritesNothing(PlanStart(w, i).x, i);
    } else {
      CallIdles(w, i);
    }
  }

  lemma CopyWritesNothing(x: Path, i: Input)
    requires InBounds(x)
    ensures Copied(x, i.xmem, i.lastPageCnt).hwicap == x.hwicap
  {
  }

  /** A sequence of calls. */
  function RunCalls(w: World, inputs: seq<Input>): (r: World)
    requires InBounds(w.core.x)
    ensures InBounds(r.core.x)
  {
    if inputs == [] then w else Call(RunCalls(w, inputs[..|inputs| - 1]), inputs[|inputs| - 1])
  }

  /** Once failed, and until a reset, nothing is written, no further abort is issued, the role stays decoupled. */
  lemma {:induction false} FailedUntilReset(w: World, inputs: seq<Input>)
    requires InBounds(w.core.x) && w.transferring && w.core.error && !w.done
    requires forall k | 0 <= k < |inputs| :: !inputs[k].reset
    ensures var r := RunCalls(w, inputs);
            && r.core.x == w.core.x && r.core.toDecoup == w.core.toDecoup && r.core.aborts == w.core.aborts
            && r.transferring && r.core.error && !r.done
            && (inputs != [] && w.core.toDecoup ==> r.port)
  {
    hide Call, InBounds;
    if inputs != [] {
      var n := |inputs| - 1;
      FailedUntilReset(w, inputs[..n]);
      var v := RunCalls(w, inputs[..n]);
      CallIdles(v, inputs[n]);
      FailedKeepsCount(v, inputs[n]);
    }
  }

  lemma FailedKeepsCount(w: World, i: Input)
    requires InBounds(w.core.x) && w.transferring && w.core.error && !w.done && !i.reset
    ensures Call(w, i).core.x == w.core.x
  {
    hide InBounds;
  }

  /** The words written since the buffer was cleared. */
  function Recent(c: Core): Path
    requires c.log.base <= |c.x.hwicap|
  {
    c.x.(hwicap := c.x.hwicap[c.log.base..])
  }

  /** The words of a finished transfer from the origin `o`: all whole words of the payload, each in its order, unless
      the last page put exactly four bytes into a fresh buffer. */
  ghost predicate Complete(words: seq<Word>, s: seq<Byte>, os: seq<bool>, o: nat) {
    && |os| == |s| / 4 && o < WRAP_AT
    && (words == NoNewlines(Mixed(s, os))
        <==> !(|s| % PAYLOAD_BYTES_PER_PAGE == 4 && Pos(o, |s| / PAYLOAD_BYTES_PER_PAGE) == 0
               && !IsNewline(Pack(s[|s| - 4..], os[|os| - 1]))))
  }

  /** The transfer began with nothing left to write, and its wraps come after whole words: exactly the transfers that
      conserve their bytes (`XmemUncleared.KeptIff`). One that cleared the buffer always does. */
  predicate Sound(l: Log) {
    l.origin < WRAP_AT && l.level && Fits(l.origin, l.pages)
  }

  /** What holds between calls: nothing was written exposed, a failed transfer is decoupled, and a sound transfer
      conserves the accepted bytes. */
  ghost predicate Inv(w: World) {
    var c, l := w.core, w.core.log;
    && InBounds(c.x) && l.exposed == 0 && l.base <= |c.x.hwicap| && |l.orders| == |l.accepted| / 4
    && (c.error ==> w.transferring && !w.done && c.toDecoup)
    && (w.transferring && l.clean ==> l.origin == 0 && l.level)
    && (w.transferring && Sound(l) && !c.error && !w.done ==>
          Conserves(Recent(c), l.accepted, l.orders, l.origin, l.pages))
    && (w.transferring && Sound(l) && w.done ==> Complete(Recent(c).hwicap, l.accepted, l.orders, l.origin))
  }

  /** Nothing more is asked of a transfer that cleared the buffer. */
  lemma CleanIsSound(w: World)
    requires Inv(w) && w.transferring && w.core.log.clean
    ensures Sound(w.core.log)
  {
    hide Conserves, Complete, InBounds;
    assert FirstWrap(0) == PAGES_PER_WRAP;
  }

  /** The words before the transfer do not matter to it. */
  lemma WrittenShift(x: Path, base: nat, p: Page, n: nat, notToSwap: bool)
    requires InBounds(x) && base <= |x.hwicap| && n < 128
    ensures var c, y := Copied(x, p, n), x.(hwicap := x.hwicap[base..]);
            && base <= |Written(c, notToSwap).hwicap| && c.hwicap == x.hwicap
            && Copied(y, p, n) == c.(hwicap := x.hwicap[base..])
            && Written(Copied(y, p, n), notToSwap)
               == Written(c, notToSwap).(hwicap := Written(c, notToSwap).hwicap[base..])
  {
    hide Written;
    CopiedShift(x, base, p, n);
    hide Copied;
    WriteShift(Copied(x, p, n), base, notToSwap);
  }

  lemma CopiedShift(x: Path, base: nat, p: Page, n: nat)
    requires InBounds(x) && base <= |x.hwicap| && n < 128
    ensures Copied(x, p, n).hwicap == x.hwicap
    ensures Copied(x.(hwicap := x.hwicap[base..]), p, n) == Copied(x, p, n).(hwicap := x.hwicap[base..])
  {
    hide Check, Payload, Wrapped;
  }

  lemma WriteShift(x: Path, base: nat, notToSwap: bool)
    requires InBounds(x) && base <= |x.hwicap|
    ensures var r := Written(x, notToSwap);
            && base <= |r.hwicap|
            && Written(x.(hwicap := x.hwicap[base..]), notToSwap) == r.(hwicap := r.hwicap[base..])
  {
    hide Words, NoNewlines;
    var ws := NoNewlines(Words(Available(x), notToSwap));
    assert (x.hwicap + ws)[base..] == x.hwicap[base..] + ws;
  }

  /** A page that is not accepted is copied beyond the bytes still to be written. */
  lemma RejectedPage(x: Path, s: seq<Byte>, os: seq<bool>, o: nat, m: nat, p: Page, n: nat)
    requires Conserves(x, s, os, o, m) && n < 128 && !Accepts(Check(p, x.pageCnt))
    ensures Conserves(Copied(x, p, n), s, os, o, m)
  {
    hide Check, Mixed, NoNewlines, Payload, Pos;
    OverlaySlice(x.buf, x.write, Payload(p), x.nextRead, 0);
  }

  /** A transfer that begins with nothing left to write. */
  lemma StartConserves(x: Path)
    requires InBounds(x) && x.nextRead == x.write
    ensures Conserves(x.(hwicap := x.hwicap[|x.hwicap|..]), [], [], x.write, 0)
  {
    MixedNone([]);
  }

  lemma ExtendedIs(os: seq<bool>, s: nat, t: nat, notToSwap: bool)
    requires |os| == s / 4
    ensures Extended(os, (s + t) / 4, notToSwap) == MoreOrders(os, s, t, notToSwap)
  {
    DivTail(s, t);
    if (s + t) / 4 <= |os| {
      assert os + Uniform(0, notToSwap) == os;
    }
  }

  lemma FitsBefore(o: nat, m: nat)
    requires o < WRAP_AT && Fits(o, m + 1)
    ensures Fits(o, m)
  {
  }

  /** The histories after each verdict on a page. */
  lemma AcceptedIs(l: Log, x: Path, i: Input)
    requires |l.orders| == |l.accepted| / 4
    ensures var b, r := Check(i.xmem, x.pageCnt), AcceptedLog(l, x, i);
            var t := if b.FullPage? then Payload(i.xmem) else if b.LastPage? then Bytes(i.xmem, i.lastPageCnt) else [];
            && r.accepted == l.accepted + t && r.orders == MoreOrders(l.orders, |l.accepted|, |t|, i.notToSwap)
            && r.pages == l.pages + (if b.FullPage? then 1 else 0)
            && r.origin == l.origin && r.level == l.level && r.base == l.base && r.clean == l.clean
            && (!Accepts(b) ==> r.accepted == l.accepted && r.orders == l.orders)
  {
    hide Check, Payload, Extended, MoreOrders;
    ExtendedIs(l.orders, |l.accepted|, |NewBytes(x, i)|, i.notToSwap);
    assert Bytes(i.xmem, PAYLOAD_BYTES_PER_PAGE) == Payload(i.xmem);
    assert l.accepted + [] == l.accepted;
    if !Accepts(Check(i.xmem, x.pageCnt)) {
      NothingExtended(l.orders, i.notToSwap);
    }
  }

  lemma NothingExtended(os: seq<bool>, notToSwap: bool)
    ensures Extended(os, |os|, notToSwap) == os
  {
  }

  /** What one run of the plan does to the words of the transfer and to its histories. */
  lemma RecentIs(s: Core, r: Core, i: Input)
    requires InBounds(s.x) && s.log.base <= |s.x.hwicap| && Outcome(s, r, i) && |s.log.orders| == |s.log.accepted| / 4
    ensures var b, c := Check(i.xmem, s.x.pageCnt), Copied(Recent(s), i.xmem, i.lastPageCnt);
            && r.log.base == s.log.base <= |r.x.hwicap|
            && Recent(r) == if Accepts(b) && i.eos then Written(c, i.notToSwap) else c
    ensures r.log == AcceptedLog(s.log, s.x, i).(overrun := r.log.overrun)
  {
    AcceptedIs(s.log, s.x, i);
    WrittenShift(s.x, s.log.base, i.xmem, i.lastPageCnt, i.notToSwap);
    hide Check, Copied, Written, InBounds, AcceptedLog, NewBytes;
  }

  /** One accepted or rejected page in a transfer that conserves its bytes. */
  lemma PageStep(s: Core, r: Core, i: Input)
    requires InBounds(s.x) && s.log.base <= |s.x.hwicap| && Outcome(s, r, i) && !s.error && Sound(r.log)
    requires Conserves(Recent(s), s.log.accepted, s.log.orders, s.log.origin, s.log.pages)
    ensures r.log.base <= |r.x.hwicap|
    ensures !r.error && r.rv != OPRV_DONE ==>
              Conserves(Recent(r), r.log.accepted, r.log.orders, r.log.origin, r.log.pages)
    ensures r.rv == OPRV_DONE ==> Complete(Recent(r).hwicap, r.log.accepted, r.log.orders, r.log.origin)
  {
    hide Outcome, Check, Mixed, NoNewlines, Payload, Pack, IsNewline, Copied, Written, Conserves, Complete, InBounds,
      Fits, Pos,
      AcceptedLog, MoreOrders, Bytes, NewBytes, Words, Available;
    var l, n, b := s.log, i.lastPageCnt, Check(i.xmem, s.x.pageCnt);
    ConservedLength(Recent(s), l.accepted, l.orders, l.origin, l.pages);
    RecentIs(s, r, i);
    AcceptedIs(l, s.x, i);
    PlanVerdict(s, r, i);
    if b.FullPage? && i.eos {
      FullPageConserves(Recent(s), l.accepted, l.orders, l.origin, l.pages, i.xmem, n, i.notToSwap);
    } else if b.LastPage? && i.eos {
      LastPageCompletes(Recent(s), l.accepted, l.orders, l.origin, l.pages, i.xmem, n, i.notToSwap);
    } else if !Accepts(b) {
      RejectedPage(Recent(s), l.accepted, l.orders, l.origin, l.pages, i.xmem, n);
    }
  }

  lemma PlanVerdict(s: Core, r: Core, i: Input)
    requires InBounds(s.x) && Outcome(s, r, i)
    ensures var b := Check(i.xmem, s.x.pageCnt);
            && (r.error <==> s.error || Fails(b, i)) && (r.rv == OPRV_DONE <==> b.LastPage? && i.eos)
  {
    hide Check, Copied, Written, InBounds, AcceptedLog;
  }

  lemma LastPageCompletes(x: Path, s: seq<Byte>, os: seq<bool>, o: nat, m: nat, p: Page, n: nat, notToSwap: bool)
    requires Conserves(x, s, os, o, m) && Check(p, x.pageCnt).LastPage? && n < 128
    ensures var t := Bytes(p, n);
            Complete(Written(Copied(x, p, n), notToSwap).hwicap, s + t, MoreOrders(os, |s|, |t|, notToSwap), o)
  {
    hide Check, Mixed, NoNewlines, Payload, Copied, Written, Pos, Bytes, MoreOrders, Pack, IsNewline, Conserves,
      InBounds,
      Complete;
    var t := Bytes(p, n);
    ConservedLength(x, s, os, o, m);
    LastLength(|s|, m, |t|);
    WroteAll(x, s, os, o, m, p, n, notToSwap);
    if n == 4 {
      BytesOf4(p);
      LastFour(s, t);
      LastOrder(os, |s|, notToSwap);
    }
    CompleteIs(Written(Copied(x, p, n), notToSwap).hwicap, s + t, MoreOrders(os, |s|, |t|, notToSwap), o,
               x.write == 0 && n == 4 && !IsNewline(Pack(Payload(p)[..4], notToSwap)));
  }

  /** The definition, with the exception as a condition of its own. */
  lemma CompleteIs(words: seq<Word>, s: seq<Byte>, os: seq<bool>, o: nat, except: bool)
    requires |os| == |s| / 4 && o < WRAP_AT && (words == NoNewlines(Mixed(s, os)) <==> !except)
    requires except <==> |s| % PAYLOAD_BYTES_PER_PAGE == 4 && Pos(o, |s| / PAYLOAD_BYTES_PER_PAGE) == 0
                         && !IsNewline(Pack(s[|s| - 4..], os[|os| - 1]))
    ensures Complete(words, s, os, o)
  {
    hide Mixed, NoNewlines, Pos, Pack, IsNewline;
  }

  lemma BytesOf4(p: Page)
    ensures Bytes(p, 4) == Payload(p)[..4]
  {
    hide Payload;
  }

  lemma LastFour(s: seq<Byte>, t: seq<Byte>)
    requires |t| == 4
    ensures (s + t)[|s + t| - 4..] == t
  {
  }

  lemma LastOrder(os: seq<bool>, s: nat, notToSwap: bool)
    requires |os| == s / 4
    ensures var r := MoreOrders(os, s, 4, notToSwap); |r| > 0 && r[|r| - 1] == notToSwap
  {
  }

  lemma WroteAll(x: Path, s: seq<Byte>, os: seq<bool>, o: nat, m: nat, p: Page, n: nat, notToSwap: bool)
    requires Conserves(x, s, os, o, m) && Check(p, x.pageCnt).LastPage? && n < 128
    ensures var t := Bytes(p, n);
            Written(Copied(x, p, n), notToSwap).hwicap == NoNewlines(Mixed(s + t, MoreOrders(os, |s|, |t|, notToSwap)))
            <==> !(x.write == 0 && n == 4 && !IsNewline(Pack(Payload(p)[..4], notToSwap)))
  {
    if x.write + n > 0 {
      LastPageWrites(x, s, os, o, m, p, n, notToSwap);
    } else {
      EmptyLastPage(x, p, notToSwap);
      hide Check, Mixed, NoNewlines, Payload, Copied, Written, Pos, Pack, IsNewline;
      assert s + [] == s && os + Uniform(0, notToSwap) == os;
    }
  }

  /** In the model, a write that would leave the buffer sends nothing. */
  lemma EmptyLastPage(x: Path, p: Page, notToSwap: bool)
    requires InBounds(x) && x.write == 0 && Check(p, x.pageCnt).LastPage?
    ensures Written(Copied(x, p, 0), notToSwap).hwicap == x.hwicap
  {
    hide Check, Payload;
    NoWords(notToSwap);
    assert x.hwicap + [] == x.hwicap;
  }

  lemma LastLength(s: nat, m: nat, t: nat)
    requires s == PAYLOAD_BYTES_PER_PAGE * m && t <= PAYLOAD_BYTES_PER_PAGE
    ensures (s + t) % PAYLOAD_BYTES_PER_PAGE == 4 <==> t == 4
    ensures t == 4 ==> (s + t) / PAYLOAD_BYTES_PER_PAGE == m
  {
  }

  lemma ConservedLength(x: Path, s: seq<Byte>, os: seq<bool>, o: nat, m: nat)
    requires Conserves(x, s, os, o, m)
    ensures InBounds(x) && o < WRAP_AT && |s| == PAYLOAD_BYTES_PER_PAGE * m && |os| == |s| / 4 && x.write == Pos(o, m)
  {
  }

  /** Every call keeps the invariant. */
  lemma InvKept(w: World, i: Input)
    requires Inv(w)
    ensures Inv(Call(w, i))
  {
    hide Call, Plan, Check, Words, NoNewlines, NewBytes, Copied, Written, Conserves, Complete, InBounds, PlanStart,
      Fits;
    var r := Call(w, i);
    WritesAreDecoupled(w, i);
    if Runs(w, i) {
      var s := PlanStart(w, i);
      CallRuns(w, i);
      ClearKeeps(w, i);
      BaseKept(s, r.core, i);
      OrdersKept(s.log, s.x, i);
      if !w.transferring {
        StartConserves(s.x);
      }
      if Sound(r.core.log) {
        SoundBefore(s.log, s.x, i);
        PageStep(s, r.core, i);
      }
    } else {
      CallIdles(w, i);
      if w.transferring && !i.reset {
        FailedOrIdle(w, i);
      } else if r.transferring && w.core.x.nextRead == w.core.x.write {
        StartConserves(w.core.x);
        CountDoesNotMatter(w.core.x.(hwicap := w.core.x.hwicap[|w.core.x.hwicap|..]), r.core.x.pageCnt, w.core.x.write);
      }
    }
  }

  lemma CountDoesNotMatter(x: Path, c: bv4, o: nat)
    requires Conserves(x, [], [], o, 0)
    ensures Conserves(x.(pageCnt := c), [], [], o, 0)
  {
  }

  lemma OrdersKept(l: Log, x: Path, i: Input)
    requires |l.orders| == |l.accepted| / 4
    ensures var r := AcceptedLog(l, x, i);
            && |r.orders| == |r.accepted| / 4 && r.origin == l.origin && r.level == l.level && r.base == l.base
            && r.clean == l.clean
  {
    hide NewBytes, Check;
    DivTail(|l.accepted|, |NewBytes(x, i)|);
  }

  lemma SoundBefore(l: Log, x: Path, i: Input)
    requires Sound(AcceptedLog(l, x, i))
    ensures Sound(l)
  {
    hide NewBytes, Check, Extended, FirstWrap;
  }

  lemma BaseKept(s: Core, r: Core, i: Input)
    requires InBounds(s.x) && s.log.base <= |s.x.hwicap| && Outcome(s, r, i)
    ensures r.log.base <= |r.x.hwicap|
  {
    hide Check, Words, NoNewlines, Payload, NewBytes;
    WrittenShift(s.x, s.log.base, i.xmem, i.lastPageCnt, i.notToSwap);
  }

  lemma FailedOrIdle(w: World, i: Input)
    requires InBounds(w.core.x) && !Runs(w, i) && w.transferring && !i.reset
    ensures Call(w, i).core.x == w.core.x
  {
    hide InBounds;
  }

  /** After power-up. */
  ghost predicate PowerUp(w: World) {
    && InBounds(w.core.x) && !w.transferring && !w.done && !w.core.error
    && w.core.log.exposed == 0 && w.core.log.base <= |w.core.x.hwicap| && w.core.log.accepted == []
    && w.core.log.orders == []
  }

  /** The invariant holds after every sequence of calls. */
  lemma {:induction false} InvAlways(w: World, inputs: seq<Input>)
    requires PowerUp(w)
    ensures Inv(RunCalls(w, inputs))
  {
    hide Call, Conserves, Complete, InBounds;
    if inputs != [] {
      var n := |inputs| - 1;
      InvAlways(w, inputs[..n]);
      InvKept(RunCalls(w, inputs[..n]), inputs[n]);
    }
  }

  /** A transfer clears the buffer if and only if the HWICAP's abort flag is low in its first call: with the flag
      high, the program of that call is dropped, later calls do not clear, and the transfer continues where the buffer
      was. */
  lemma TransferIsClean(w: World, i: Input)
    requires InBounds(w.core.x) && !w.transferring && i.start && !i.reset
    ensures var r := Call(w, i);
            && r.transferring && (r.core.log.clean <==> !i.abortFlag)
            && (i.abortFlag ==> r.core.x == w.core.x.(pageCnt := 0xf) && r.core.log.origin == w.core.x.write
                                && (r.core.log.level <==> w.core.x.nextRead == w.core.x.write))
  {
    hide Check, Copied, Written, NewBytes, InBounds;
    if i.abortFlag {
      var p := Plan(w, i).0.core.(rv := OPRV_OK, silent := false, wasAbort := true);
      RunExits([], 0, p, i);
    } else {
      CallRuns(w, i);
      ClearKeeps(w, i);
    }
  }

  // ---- The decoupling port, which is written at the end of a call ----

  /** The words that a call writes, if it runs the plan, finds a page to accept, and may write. */
  ghost function WordsOf(w: World, i: Input): seq<Word>
    requires InBounds(w.core.x)
  {
    var x := PlanStart(w, i).x;
    if Runs(w, i) && i.eos && Accepts(Check(i.xmem, x.pageCnt)) then
      NoNewlines(Words(Available(Copied(x, i.xmem, i.lastPageCnt)), i.notToSwap))
    else []
  }

  lemma CallWrites(w: World, i: Input)
    requires InBounds(w.core.x)
    ensures Call(w, i).core.x.hwicap == w.core.x.hwicap + WordsOf(w, i)
  {
    hide Call, Plan, Check, Copied, NewBytes, InBounds, PlanStart, Available, Words, NoNewlines;
    assert w.core.x.hwicap + [] == w.core.x.hwicap;
    if Runs(w, i) {
      CallRuns(w, i);
      ClearKeeps(w, i);
      CopyWritesNothing(PlanStart(w, i).x, i);
    } else {
      CallIdles(w, i);
    }
  }

  /** The latest call that ran the plan did not finish the transfer. */
  predicate Unfinished(w: World, inputs: seq<Input>)
    requires InBounds(w.core.x)
  {
    if inputs == [] then w.core.toDecoup else
      var (init, i) := (inputs[..|inputs| - 1], inputs[|inputs| - 1]);
      var v := RunCalls(w, init);
      if Runs(v, i) then !Call(v, i).done else Unfinished(w, init)
  }

  lemma PortAfter(w: World, i: Input)
    requires InBounds(w.core.x)
    ensures var r := Call(w, i);
            && r.port == (r.core.toDecoup || i.abortFlag)
            && r.core.toDecoup == if Runs(w, i) then !r.done else w.core.toDecoup
  {
    hide Call, Plan, Check, Copied, Written, NewBytes, InBounds, PlanStart;
    if Runs(w, i) {
      CallRuns(w, i);
      StartsUnaborted(w, i);
    } else {
      CallIdles(w, i);
    }
  }

  lemma StartsUnaborted(w: World, i: Input)
    requires InBounds(w.core.x) && Runs(w, i)
    ensures !PlanStart(w, i).wasAbort
  {
    hide InBounds;
  }

  /** After every sequence of calls the port is high exactly if the latest plan did not finish, or the HWICAP aborted in
      the last call. */
  lemma {:induction false} PortMeans(w: World, inputs: seq<Input>)
    requires InBounds(w.core.x) && w.port == w.core.toDecoup
    ensures var r := RunCalls(w, inputs);
            && r.core.toDecoup == Unfinished(w, inputs)
            && r.port == (Unfinished(w, inputs) || (inputs != [] && inputs[|inputs| - 1].abortFlag))
  {
    hide Call, InBounds, Runs;
    if inputs != [] {
      var n := |inputs| - 1;
      PortMeans(w, inputs[..n]);
      PortAfter(RunCalls(w, inputs[..n]), inputs[n]);
    }
  }

  /** In every run: a call writes words while the decoupling port is low if and only if it has words to write, the
      latest plan before it has finished or there was none, and the HWICAP did not abort in the call before. */
  lemma WordsBeforePort(w: World, inputs: seq<Input>, i: Input)
    requires InBounds(w.core.x) && w.port == w.core.toDecoup
    ensures var v := RunCalls(w, inputs);
            var r := Call(v, i);
            !v.port && r.core.x.hwicap != v.core.x.hwicap
            <==> WordsOf(v, i) != [] && !Unfinished(w, inputs)
                 && (inputs == [] || !inputs[|inputs| - 1].abortFlag)
  {
    hide Call, RunCalls, InBounds, WordsOf, Unfinished;
    var v := RunCalls(w, inputs);
    PortMeans(w, inputs);
    CallWrites(v, i);
    assert |Call(v, i).core.x.hwicap| == |v.core.x.hwicap| + |WordsOf(v, i)|;
  }

  /** The page of a first call: its words leave before the port is raised; if it is also the last page, the port is
      never raised. */
  lemma FirstPagePrecedesPort(w: World, i: Input)
    requires InBounds(w.core.x) && !w.transferring && !w.port && i.start && !i.reset && !i.abortFlag && i.eos
    requires var b := Check(i.xmem, 0xf); b.FullPage? || (b.LastPage? && i.lastPageCnt >= 5)
    ensures var b, r := Check(i.xmem, 0xf), Call(w, i);
            && r.core.x.hwicap
                == w.core.x.hwicap + NoNewlines(Words(Bytes(i.xmem, PageLen(b, i.lastPageCnt)), i.notToSwap))
            && (r.port <==> b.FullPage?) && (r.done <==> b.LastPage?)
  {
    hide Check, Words, NoNewlines, Payload, Written, Copied, Available;
    CallRuns(w, i);
    ClearKeeps(w, i);
    StartsUnaborted(w, i);
    CallWrites(w, i);
    FreshPage(PlanStart(w, i).x, i);
  }

  lemma FreshPage(x: Path, i: Input)
    requires InBounds(x) && x.write == x.nextRead == 0
    requires var b := Check(i.xmem, x.pageCnt); b.FullPage? || (b.LastPage? && i.lastPageCnt >= 5)
    ensures Words(Available(Copied(x, i.xmem, i.lastPageCnt)), i.notToSwap)
            == Words(Bytes(i.xmem, PageLen(Check(i.xmem, x.pageCnt), i.lastPageCnt)), i.notToSwap)
  {
    hide Check, Payload, Words, Copied, Available;
    if Check(i.xmem, x.pageCnt).FullPage? {
      CopiedFullPage(x, i.xmem, i.lastPageCnt);
      PageAvailable(x, i.xmem, PAYLOAD_BYTES_PER_PAGE);
      assert [] + Bytes(i.xmem, PAYLOAD_BYTES_PER_PAGE) + [] == Bytes(i.xmem, PAYLOAD_BYTES_PER_PAGE);
    } else {
      LastWords(x, 0, 0, i.xmem, i.lastPageCnt, i.notToSwap);
      assert [] + Bytes(i.xmem, i.lastPageCnt) == Bytes(i.xmem, i.lastPageCnt);
    }
  }

  // ---- When the write loop stays in the buffer ----

  /** A call leaves the buffer exactly if it accepts a last page without bytes at the start of the buffer. */
  lemma CallDefined(w: World, i: Input)
    requires InBounds(w.core.x) && !w.core.log.overrun
    ensures Call(w, i).core.log.overrun <==> Runs(w, i) && Overruns(PlanStart(w, i).x, i)
  {
    hide Call, Plan, Check, Copied, Written, NewBytes, InBounds, PlanStart;
    if Runs(w, i) {
      CallRuns(w, i);
      ClearKeeps(w, i);
    } else {
      CallIdles(w, i);
    }
  }
}
