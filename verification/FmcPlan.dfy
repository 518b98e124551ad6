/** The plan interpreter of the FPGA Management Core in `GLOBAL_XMEM_TO_HWICAP`: a list of opcodes, each guarded by a
    mask over the one-hot return value of the previous one, makes every call of the core. */
module FmcPlan {
  import opened HwicapWords
  import opened XmemPath
  import opened XmemTransfer
  import N = NalLink

  const OPRV_OK: bv8 := 0x01
  const OPRV_FAIL: bv8 := 0x02
  const OPRV_SKIPPED: bv8 := 0x04
  const OPRV_NOT_COMPLETE: bv8 := 0x08
  const OPRV_PARTIAL_COMPLETE: bv8 := 0x10
  const OPRV_DONE: bv8 := 0x20
  const MASK_ALWAYS: bv8 := 0xFF
  const MAX_PROGRAM_LENGTH: nat := 64

  datatype Opcode =
    | ClearInBuffer | ActivateDecoup | XmemCopyData | EnableSilentSkip | BufferToHwicap | Exit
    | DeactivateDecoup | ClearRoutingTable | DisableSilentSkip | AbortHwicap | Fail

  datatype Instr = Instr(op: Opcode, mask: bv8)

  const PLAN: seq<Instr> := [
    Instr(ActivateDecoup, MASK_ALWAYS),
    Instr(XmemCopyData, MASK_ALWAYS),
    Instr(EnableSilentSkip, MASK_ALWAYS),
    Instr(BufferToHwicap, OPRV_DONE | OPRV_OK),
    Instr(Exit, OPRV_OK | OPRV_NOT_COMPLETE),
    Instr(DeactivateDecoup, OPRV_DONE),
    Instr(ClearRoutingTable, OPRV_DONE),
    Instr(Exit, OPRV_DONE),
    Instr(DisableSilentSkip, MASK_ALWAYS),
    Instr(AbortHwicap, OPRV_FAIL),
    Instr(Fail, OPRV_OK),
    Instr(Exit, OPRV_FAIL)]

  const FIRST: Instr := Instr(ClearInBuffer, MASK_ALWAYS)

  /** The inputs of one call: the page memory, the host's control register, and the HWICAP's EOS and abort flags. */
  datatype CallInput = CallInput(xmem: Page, lastPageCnt: nat, notToSwap: bool, eos: bool, reset: bool, start: bool,
                                 abortFlag: bool)

  /** The last-page count has seven bits. */
  type Input = i: CallInput | i.lastPageCnt < 128
    witness CallInput([0, 0, 0, 0, 0, 0, 0, 0, 0, 0, 0, 0, 0, 0, 0, 0, 0, 0, 0, 0, 0, 0, 0, 0, 0, 0, 0, 0, 0, 0, 0, 0],
                      1, false, false, false, false, false)

  /** Histories. Of the current transfer: the payload accepted and the number of full pages in it, the order in which
      each of its words is packed, the number of words written before, the write pointer at the start and whether
      everything before it was written then, and whether the buffer was cleared. Over all transfers: the number of
      words written while the role was not decoupled, and whether a write left the buffer, which C does not define. */
  datatype Log = Log(accepted: seq<Byte>, pages: nat, orders: seq<bool>, base: nat, origin: nat, level: bool,
                     clean: bool, exposed: nat, overrun: bool)

  datatype Core = Core(x: Path, rv: bv8, silent: bool, lastPage: bool, toDecoup: bool, error: bool, wasAbort: bool,
                       aborts: nat, table: N.Routing, log: Log)

  function ZeroBuffer(): (s: seq<Byte>)
    ensures |s| == IN_BUFFER_SIZE
  {
    seq(IN_BUFFER_SIZE, _ => 0)
  }

  function ReturnOf(b: Burst): bv8 {
    match b
    case UpToDate => OPRV_NOT_COMPLETE
    case InTransfer => OPRV_PARTIAL_COMPLETE
    case Mismatch => OPRV_FAIL
    case LastPage => OPRV_DONE
    case FullPage => OPRV_OK
  }

  predicate Accepts(b: Burst) {
    b.LastPage? || b.FullPage?
  }

  function NewBytes(x: Path, i: Input): seq<Byte> {
    var b := Check(i.xmem, x.pageCnt);
    if Accepts(b) then Bytes(i.xmem, PageLen(b, i.lastPageCnt)) else []
  }

  /** The return value of the write: done is passed on, otherwise it says whether the read pointer moved. */
  function WriteReturn(rv: bv8, lastPage: bool, stayed: bool): bv8 {
    if rv == OPRV_DONE || lastPage then OPRV_DONE else if stayed then OPRV_NOT_COMPLETE else OPRV_OK
  }

  /** Releasing the role keeps the return value of a finished transfer. */
  function ReleaseReturn(rv: bv8): bv8 {
    if rv == OPRV_DONE then OPRV_DONE else OPRV_OK
  }

  /** How many words a write sends while the role is not decoupled. */
  function Exposed(x: Path, toDecoup: bool, notToSwap: bool): nat
    requires InBounds(x)
  {
    if toDecoup then 0 else |NoNewlines(Words(Available(x), notToSwap))|
  }

  /** The orders of `n` words, the new ones in the order of this call. */
  function Extended(os: seq<bool>, n: nat, notToSwap: bool): seq<bool> {
    if n <= |os| then os else os + Uniform(n - |os|, notToSwap)
  }

  /** The histories at the start of a transfer. */
  function FreshLog(l: Log, x: Path, clean: bool): Log {
    Log([], 0, [], |x.hwicap|, x.write, x.nextRead == x.write, clean, l.exposed, l.overrun)
  }

  function AcceptedLog(l: Log, x: Path, i: Input): Log {
    var s := l.accepted + NewBytes(x, i);
    l.(accepted := s, pages := l.pages + (if Check(i.xmem, x.pageCnt).FullPage? then 1 else 0),
       orders := Extended(l.orders, |s| / 4, i.notToSwap))
  }

  function WrittenLog(l: Log, x: Path, toDecoup: bool, notToSwap: bool): Log
    requires InBounds(x)
  {
    l.(exposed := l.exposed + Exposed(x, toDecoup, notToSwap), overrun := l.overrun || x.maxWrite >= IN_BUFFER_SIZE)
  }

  function ClearedPath(x: Path): (y: Path)
    ensures InBounds(y)
  {
    Path(ZeroBuffer(), 0, 0, 0, x.pageCnt, x.hwicap)
  }

  /** The effect of one opcode. */
  function OpStep(op: Opcode, s: Core, i: Input): (r: Core)
    requires InBounds(s.x)
    ensures InBounds(r.x)
  {
    match op
    case ClearInBuffer =>
      var y := ClearedPath(s.x);
      s.(x := y, rv := OPRV_OK, log := FreshLog(s.log, y, true))
    case ActivateDecoup => s.(toDecoup := true, rv := OPRV_OK)
    case XmemCopyData =>
      var b := Check(i.xmem, s.x.pageCnt);
      s.(x := Copied(s.x, i.xmem, i.lastPageCnt), lastPage := b.LastPage?, rv := ReturnOf(b),
         log := AcceptedLog(s.log, s.x, i))
    case EnableSilentSkip => s.(silent := true)
    case DisableSilentSkip => s.(silent := false)
    case BufferToHwicap =>
      if !i.eos then s.(rv := OPRV_FAIL) else
        var y := Written(s.x, i.notToSwap);
        s.(x := y, log := WrittenLog(s.log, s.x, s.toDecoup, i.notToSwap),
           rv := WriteReturn(s.rv, s.lastPage, y.nextRead == s.x.nextRead))
    case DeactivateDecoup => s.(toDecoup := false, rv := ReleaseReturn(s.rv))
    case AbortHwicap => s.(aborts := s.aborts + 1, error := true, wasAbort := true, rv := OPRV_OK)
    case Fail => s.(rv := OPRV_FAIL)
    case ClearRoutingTable => s.(table := N.ClearedRouting(s.table))
    case Exit => s
  }

  function Skip(s: Core): Core {
    if s.silent then s else s.(rv := OPRV_SKIPPED)
  }

  /** The interpreter from position `pc`. */
  function RunFrom(prog: seq<Instr>, pc: nat, s: Core, i: Input): (r: Core)
    requires InBounds(s.x)
    ensures InBounds(r.x)
    decreases |prog| - pc
  {
    if pc >= |prog| then s
    else if prog[pc].mask & s.rv == 0 then RunFrom(prog, pc + 1, Skip(s), i)
    else if prog[pc].op.Exit? then s
    else RunFrom(prog, pc + 1, OpStep(prog[pc].op, s, i), i)
  }

  lemma OverrunIs(op: Opcode, s: Core, i: Input)
    requires InBounds(s.x)
    ensures OpStep(op, s, i).log.overrun
            <==> s.log.overrun || (op.BufferToHwicap? && i.eos && s.x.maxWrite >= IN_BUFFER_SIZE)
  {
    hide Copied, Written, NewBytes, Exposed, ClearedPath, Extended, WriteReturn, ReleaseReturn, ReturnOf, Check,
      N.ClearedRouting, InBounds, FreshLog, AcceptedLog, WrittenLog;
    match op
    case ClearInBuffer => FreshOverrun(s.log, ClearedPath(s.x), true);
    case XmemCopyData => AcceptedOverrun(s.log, s.x, i);
    case BufferToHwicap => WrittenOverrun(s.log, s.x, s.toDecoup, i.notToSwap);
    case _ =>
  }

  lemma FreshOverrun(l: Log, x: Path, clean: bool)
    ensures FreshLog(l, x, clean).overrun == l.overrun
  {
  }

  lemma AcceptedOverrun(l: Log, x: Path, i: Input)
    ensures AcceptedLog(l, x, i).overrun == l.overrun
  {
    hide NewBytes, Check, Extended;
  }

  lemma WrittenOverrun(l: Log, x: Path, toDecoup: bool, notToSwap: bool)
    requires InBounds(x)
    ensures WrittenLog(l, x, toDecoup, notToSwap).overrun == (l.overrun || x.maxWrite >= IN_BUFFER_SIZE)
  {
    hide Exposed;
  }

  lemma {:induction false} OverrunStays(prog: seq<Instr>, pc: nat, s: Core, i: Input)
    requires InBounds(s.x)
    ensures s.log.overrun ==> RunFrom(prog, pc, s, i).log.overrun
    decreases |prog| - pc
  {
    hide OpStep, InBounds;
    if pc < |prog| {
      OverrunIs(prog[pc].op, s, i);
      OverrunStays(prog, pc + 1, Skip(s), i);
      OverrunStays(prog, pc + 1, OpStep(prog[pc].op, s, i), i);
    }
  }

  /** The persistent state between calls. */
  datatype World = World(core: Core, transferring: bool, done: bool, port: bool)

  /** The plan of a call: its program, and the state in which it starts. */
  function Plan(w: World, i: Input): (r: (World, seq<Instr>))
    ensures |r.1| <= 13 && (InBounds(w.core.x) ==> InBounds(r.0.core.x))
  {
    var idle := w.(core := w.core.(error := false, lastPage := false), done := false, transferring := false);
    if !w.transferring then
      if i.reset || !i.start then (idle, []) else
        var c := idle.core.(x := idle.core.x.(pageCnt := 0xf), log := FreshLog(idle.core.log, idle.core.x, false));
        (idle.(transferring := true, core := c), if i.abortFlag then [] else [FIRST] + PLAN)
    else if i.reset then (idle, [])
    else if w.done then (w.(transferring := i.start), [])
    else if i.abortFlag || w.core.error then (w, [])
    else (w, PLAN)
  }

  /** The end of a call: the return value decides whether the transfer is done or failed. */
  function Finish(w: World): (r: World) {
    var c := w.core;
    World(c.(error := c.error || (w.transferring && c.rv == OPRV_FAIL)),
          w.transferring, w.done || (w.transferring && c.rv == OPRV_DONE), c.toDecoup || c.wasAbort)
  }

  /** One call of the core. The decoupling port is written once, at the end. */
  function Call(w: World, i: Input): (r: World)
    requires InBounds(w.core.x)
    ensures InBounds(r.core.x)
  {
    hide Plan, InBounds;
    var (p, prog) := Plan(w, i);
    var c := p.core.(rv := OPRV_OK, silent := false, wasAbort := i.abortFlag);
    Finish(p.(core := RunFrom(prog, 0, c, i)))
  }

  lemma CallIs(w: World, i: Input)
    requires InBounds(w.core.x)
    ensures var (p, prog) := Plan(w, i);
            var c := p.core.(rv := OPRV_OK, silent := false, wasAbort := i.abortFlag);
            Call(w, i) == Finish(p.(core := RunFrom(prog, 0, c, i)))
  {
    hide Plan, RunFrom, Finish, InBounds;
  }

  lemma CallOverruns(w: World, i: Input)
    requires InBounds(w.core.x)
    ensures var (p, prog) := Plan(w, i);
            var c := p.core.(rv := OPRV_OK, silent := false, wasAbort := i.abortFlag);
            Call(w, i).core.log.overrun == RunFrom(prog, 0, c, i).log.overrun
  {
    hide Plan, RunFrom, InBounds;
  }

  class ManagementCore {
    const path: XmemBuffer
    const currentMrt: array<nat>
    var lastReturnValue: bv8
    var silentSkip: bool
    var lastPageReceived: bool
    var toDecoup: bool
    var transferError: bool
    var wasAbort: bool
    var aborts: nat
    var transferring: bool
    var operationDone: bool
    var setDecoup: bool
    var maxDiscoveredNodeId: nat
    var mrtVersion: nat
    var needToUpdateMrt: bool
    ghost var log: Log

    ghost predicate Sized()
      reads `maxDiscoveredNodeId
    {
      currentMrt.Length == N.MAX_MRT_SIZE && maxDiscoveredNodeId < N.MAX_MRT_SIZE
    }

    ghost function Table(): N.Routing
      reads `maxDiscoveredNodeId, `mrtVersion, `needToUpdateMrt, currentMrt
      requires Sized()
    {
      N.Routing(currentMrt[..], maxDiscoveredNodeId, mrtVersion, needToUpdateMrt)
    }

    ghost function CoreView(): Core
      reads this, path, path.bufferIn, currentMrt
      requires Sized()
    {
      Core(path.View(), lastReturnValue, silentSkip, lastPageReceived, toDecoup, transferError, wasAbort,
           aborts, Table(), log)
    }

    ghost function View(): World
      reads this, path, path.bufferIn, currentMrt
      requires Sized()
    {
      World(CoreView(), transferring, operationDone, setDecoup)
    }

    ghost predicate Valid()
      reads this, path, path.bufferIn
    {
      Sized() && path.Valid() && (currentMrt as object) != path.bufferIn
    }

    constructor ()
      ensures Valid() && fresh(path) && fresh(path.bufferIn) && fresh(currentMrt)
      ensures !transferring && !operationDone && !setDecoup && !toDecoup && !transferError && aborts == 0
      ensures log == Log([], 0, [], 0, 0, true, false, 0, false)
    {
      path := new XmemBuffer();
      currentMrt := new nat[N.MAX_MRT_SIZE](_ => 0);
      maxDiscoveredNodeId, mrtVersion, needToUpdateMrt := 0, 0, false;
      lastReturnValue, silentSkip, lastPageReceived, toDecoup := 0, false, false, false;
      transferError, wasAbort, aborts, transferring, operationDone, setDecoup := false, false, 0, false, false, false;
      log := Log([], 0, [], 0, 0, true, false, 0, false);
    }

    method ExecuteClear(i: Input)
      requires Valid()
      modifies this`lastReturnValue, this`log, path, path.bufferIn
      ensures Valid() && CoreView() == OpStep(ClearInBuffer, old(CoreView()), i)
    {
      path.Clear();
      log := FreshLog(log, path.View(), true);
      lastReturnValue := OPRV_OK;
    }

    method ExecuteCopy(i: Input)
      requires Valid()
      modifies this`lastReturnValue, this`lastPageReceived, this`log, path, path.bufferIn
      ensures Valid() && CoreView() == OpStep(XmemCopyData, old(CoreView()), i)
    {
      hide Check, Copied, NewBytes, AcceptedLog;
      log := AcceptedLog(log, path.View(), i);
      var copyRet := path.CopyAndCheckBurst(i.xmem, i.lastPageCnt);
      lastPageReceived := copyRet.LastPage?;
      lastReturnValue := ReturnOf(copyRet);
    }

    method ExecuteWrite(i: Input)
      requires Valid() && (i.eos ==> path.bufferInPtrMaxWrite < IN_BUFFER_SIZE)
      modifies this`lastReturnValue, this`log, path
      ensures Valid() && CoreView() == OpStep(BufferToHwicap, old(CoreView()), i)
    {
      hide Written, WrittenLog, WriteReturn;
      if !i.eos {
        lastReturnValue := OPRV_FAIL;
        return;
      }
      var oldNextRead := path.bufferInPtrNextRead;
      log := WrittenLog(log, path.View(), toDecoup, i.notToSwap);
      path.WriteBuffer(i.notToSwap);
      lastReturnValue := WriteReturn(lastReturnValue, lastPageReceived, path.bufferInPtrNextRead == oldNextRead);
    }

    /** The loop of `OP_CLEAR_ROUTING_TABLE`. */
    method ExecuteClearTable(i: Input)
      requires Valid()
      modifies this`mrtVersion, this`needToUpdateMrt, currentMrt
      ensures Valid() && CoreView() == OpStep(ClearRoutingTable, old(CoreView()), i)
    {
      ghost var before: N.Table := currentMrt[..];
      needToUpdateMrt, mrtVersion := true, N.NextVersion(mrtVersion);
      for k := 0 to maxDiscoveredNodeId
        invariant needToUpdateMrt && mrtVersion == N.NextVersion(old(mrtVersion))
        invariant forall j | 0 <= j < N.MAX_MRT_SIZE :: currentMrt[j] == if j < k then 0 else before[j]
      {
        currentMrt[k] := 0;
      }
      assert currentMrt[..] == N.ClearedRows(before, maxDiscoveredNodeId);
    }

    /** The opcodes of the interpreter itself. */
    method ExecuteControl(op: Opcode, ghost i: Input)
      requires Valid() && (op.EnableSilentSkip? || op.DisableSilentSkip? || op.Fail? || op.Exit?)
      modifies this`lastReturnValue, this`silentSkip
      ensures Valid() && CoreView() == OpStep(op, old(CoreView()), i)
    {
      hide Table;
      match op
      case EnableSilentSkip => silentSkip := true;
      case DisableSilentSkip => silentSkip := false;
      case Fail => lastReturnValue := OPRV_FAIL;
      case Exit =>
    }

    method ExecuteAbort(ghost i: Input)
      requires Valid()
      modifies this`lastReturnValue, this`transferError, this`wasAbort, this`aborts
      ensures Valid() && CoreView() == OpStep(AbortHwicap, old(CoreView()), i)
    {
      hide Table, InBounds;
      aborts, transferError, wasAbort, lastReturnValue := aborts + 1, true, true, OPRV_OK;
    }

    /** The opcodes that decouple or release. */
    method ExecuteDecoup(op: Opcode, ghost i: Input)
      requires Valid() && (op.ActivateDecoup? || op.DeactivateDecoup?)
      modifies this`lastReturnValue, this`toDecoup
      ensures Valid() && CoreView() == OpStep(op, old(CoreView()), i)
    {
      hide Table;
      match op
      case ActivateDecoup => toDecoup, lastReturnValue := true, OPRV_OK;
      case DeactivateDecoup =>
        toDecoup, lastReturnValue := false, ReleaseReturn(lastReturnValue);
    }

    /** The opcode switch. */
    method Execute(op: Opcode, i: Input)
      requires Valid() && !OpStep(op, CoreView(), i).log.overrun
      modifies this`lastReturnValue, this`silentSkip, this`lastPageReceived, this`toDecoup, this`transferError
      modifies this`wasAbort, this`aborts, this`log, this`mrtVersion, this`needToUpdateMrt, path, path.bufferIn,
               currentMrt
      ensures Valid() && CoreView() == OpStep(op, old(CoreView()), i)
    {
      OverrunIs(op, CoreView(), i);
      hide OpStep, InBounds;
      match op
      case ClearInBuffer => ExecuteClear(i);
      case XmemCopyData => ExecuteCopy(i);
      case BufferToHwicap => ExecuteWrite(i);
      case ClearRoutingTable => ExecuteClearTable(i);
      case ActivateDecoup => ExecuteDecoup(op, i);
      case DeactivateDecoup => ExecuteDecoup(op, i);
      case AbortHwicap => ExecuteAbort(i);
      case _ => ExecuteControl(op, i);
    }

    /** An instruction whose mask does not match. */
    method SkipInstruction()
      requires Valid()
      modifies this`lastReturnValue
      ensures Valid() && CoreView() == Skip(old(CoreView()))
    {
      if !silentSkip {
        lastReturnValue := OPRV_SKIPPED;
      }
    }

    /** The program loop. */
    method RunPlan(prog: seq<Instr>, i: Input)
      requires Valid() && |prog| <= MAX_PROGRAM_LENGTH
      requires !RunFrom(prog, 0, CoreView().(rv := OPRV_OK, silent := false), i).log.overrun
      modifies this`lastReturnValue, this`silentSkip, this`lastPageReceived, this`toDecoup, this`transferError
      modifies this`wasAbort, this`aborts, this`log, this`mrtVersion, this`needToUpdateMrt, path, path.bufferIn,
               currentMrt
      ensures Valid()
      ensures CoreView() == RunFrom(prog, 0, old(CoreView()).(rv := OPRV_OK, silent := false), i)
    {
      hide OpStep, Skip;
      lastReturnValue, silentSkip := OPRV_OK, false;
      ghost var result := RunFrom(prog, 0, CoreView(), i);
      var progCnt := 0;
      while progCnt < |prog|
        invariant Valid()
        invariant RunFrom(prog, progCnt, CoreView(), i) == result
        decreases |prog| - progCnt
      {
        if prog[progCnt].mask & lastReturnValue == 0 {
          SkipInstruction();
        } else {
          if prog[progCnt].op.Exit? {
            progCnt := MAX_PROGRAM_LENGTH;
          } else {
            OverrunStays(prog, progCnt + 1, OpStep(prog[progCnt].op, CoreView(), i), i);
            Execute(prog[progCnt].op, i);
          }
        }
        progCnt := progCnt + 1;
      }
    }

    method StartTransfer()
      requires Valid()
      modifies this`transferring, this`log, path`pageCnt
      ensures Valid() && transferring
      ensures var c := old(CoreView());
              CoreView() == c.(x := c.x.(pageCnt := 0xf), log := FreshLog(c.log, c.x, false))
    {
      log := FreshLog(log, path.View(), false);
      path.pageCnt := 0xf;
      transferring := true;
    }

    /** Choosing the program of a call. */
    method MakePlan(i: Input) returns (prog: seq<Instr>)
      requires Valid()
      modifies this`operationDone, this`transferError, this`lastPageReceived, this`transferring
      modifies this`log, path`pageCnt
      ensures Valid() && View() == Plan(old(View()), i).0 && prog == Plan(old(View()), i).1
    {
      prog := [];
      if transferring && i.reset {
        transferring := false;
      }
      if !transferring {
        operationDone, transferError, lastPageReceived := false, false, false;
        if !i.reset && i.start {
          StartTransfer();
          prog := if i.abortFlag then [] else [FIRST] + PLAN;
        }
      } else if operationDone {
        transferring := i.start;
      } else if !i.abortFlag && !transferError {
        prog := PLAN;
      }
    }

    method FinishCall()
      requires Valid()
      modifies this`operationDone, this`transferError, this`setDecoup
      ensures Valid() && View() == Finish(old(View()))
    {
      if transferring {
        if lastReturnValue == OPRV_DONE {
          operationDone := true;
        }
        if lastReturnValue == OPRV_FAIL {
          transferError := true;
        }
      }
      setDecoup := toDecoup || wasAbort;
    }

    /** One call of `fmc`; the byte order is read from the host's control register in each call. The write loop has to
        stay within the buffer; `FmcSafety.CallDefined` says when it does. */
    method Step(i: Input)
      requires Valid() && !Call(View(), i).core.log.overrun
      modifies this, path, path.bufferIn, currentMrt
      ensures Valid() && View() == Call(old(View()), i)
    {
      hide RunFrom, Plan, Finish, Call;
      CallOverruns(View(), i);
      ghost var w := View();
      var prog := MakePlan(i);
      ghost var p := View();
      wasAbort := i.abortFlag;
      RunPlan(prog, i);
      assert View() == p.(core := CoreView());
      CallIs(w, i);
      FinishCall();
    }
  }
}
