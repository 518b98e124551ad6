/** The processes joined by the control link: the link FSM of the management core, the AXI4-Lite process of the
    network abstraction layer, its status memory, and the agency that holds the routing table. */
module NalLink {
  const WORDS: nat := 16
  const MAX_MRT_SIZE: nat := 64
  const CONFIG_OWN_RANK: nat := 0
  const CONFIG_MRT_VERSION: nat := 1
  const CONFIG_SAVED_UDP_PORTS: nat := 2
  const CONFIG_SAVED_TCP_PORTS: nat := 3
  const CONFIG_SAVED_FMC_PORTS: nat := 4
  const STATUS_MRT_VERSION: nat := 0
  const STATUS_OPEN_UDP_PORTS: nat := 1
  const STATUS_OPEN_TCP_PORTS: nat := 2
  const STATUS_FMC_PORT_PROCESSED: nat := 3
  const STATUS_OWN_RANK: nat := 13
  const INVALID_MRT_VALUE: nat := 0xFFFFF

  /** The marker that forces a first update of every row. */
  const MRT_MARKER: nat := 1

  type Registers = s: seq<nat> | |s| == WORDS witness [0, 0, 0, 0, 0, 0, 0, 0, 0, 0, 0, 0, 0, 0, 0, 0]
  type Table = s: seq<nat> | |s| == MAX_MRT_SIZE witness seq(MAX_MRT_SIZE, _ => 0)

  datatype Update = Update(address: nat, value: nat)

  /** The address space of the control link. */
  datatype Link = Link(config: Registers, status: Registers, mrt: Table)

  class LinkMemory {
    const words: array<nat>

    ghost predicate Valid() {
      words.Length == WORDS + WORDS + MAX_MRT_SIZE
    }

    ghost function View(): Link
      reads words
      requires Valid()
    {
      Link(words[..WORDS], words[WORDS..2 * WORDS], words[2 * WORDS..])
    }

    constructor ()
      ensures Valid() && fresh(words)
      ensures forall i | 0 <= i < words.Length :: words[i] == 0
    {
      words := new nat[WORDS + WORDS + MAX_MRT_SIZE](_ => 0);
    }

    method WriteConfig(i: nat, v: nat)
      requires Valid() && i < WORDS
      modifies words
      ensures View() == old(View()).(config := old(View()).config[i := v])
    {
      words[i] := v;
    }

    method WriteStatus(i: nat, v: nat)
      requires Valid() && i < WORDS
      modifies words
      ensures View() == old(View()).(status := old(View()).status[i := v])
    {
      words[WORDS + i] := v;
    }

    method WriteMrt(i: nat, v: nat)
      requires Valid() && i < MAX_MRT_SIZE
      modifies words
      ensures View() == old(View()).(mrt := old(View()).mrt[i := v])
    {
      words[2 * WORDS + i] := v;
    }
  }

  // ---- The core's routing table ----

  const VERSIONS: nat := 0x1_0000_0000

  function NextVersion(v: nat): nat {
    (v + 1) % VERSIONS
  }

  /** `current_MRT` with the highest node id, the version, and whether the link FSM has to hand it over. */
  datatype Routing = Routing(mrt: Table, maxNode: nat, version: nat, needMrt: bool)

  /** `OP_CLEAR_ROUTING_TABLE` clears the rows below the highest node id. */
  function ClearedRows(t: Table, maxNode: nat): (r: Table)
    ensures forall k | 0 <= k < MAX_MRT_SIZE :: r[k] == if k < maxNode then 0 else t[k]
  {
    if maxNode >= MAX_MRT_SIZE then seq(MAX_MRT_SIZE, _ => 0) else seq(maxNode, _ => 0) + t[maxNode..]
  }

  /** The loop stops one row early. */
  lemma ClearLeavesLastRow(t: Table, maxNode: nat)
    requires maxNode < MAX_MRT_SIZE
    ensures (forall k | 0 <= k <= maxNode :: ClearedRows(t, maxNode)[k] == 0) <==> t[maxNode] == 0
  {
    assert ClearedRows(t, maxNode)[maxNode] == t[maxNode];
  }

  function ClearedRouting(t: Routing): Routing {
    Routing(ClearedRows(t.mrt, t.maxNode), t.maxNode, NextVersion(t.version), true)
  }

  // ---- The link FSM of the management core ----

  datatype LinkFsm = LinkIdle | LinkWait | UpdateMrt | UpdateConfig | UpdateState | UpdateSavedState

  /** `current_MRT`, its version, the saved port words, and the FSM. */
  datatype Fmc = Fmc(version: nat, mrt: Table, maxNode: nat, rank: nat, savedUdp: nat, savedTcp: nat, savedFmc: nat,
                     fsm: LinkFsm, copyIndex: nat, requestCnt: nat, needMrt: bool, needConfig: bool,
                     nalStatus: Registers)

  /** What every step keeps about the indices. */
  ghost predicate FmcOk(f: Fmc) {
    && f.maxNode < MAX_MRT_SIZE
    && (f.fsm.UpdateMrt? ==> f.copyIndex <= f.maxNode)
    && (f.fsm.UpdateState? ==> f.requestCnt < WORDS)
  }

  function ConfigWritten(l: Link, f: Fmc): Link {
    l.(config := l.config[CONFIG_OWN_RANK := f.rank][CONFIG_SAVED_UDP_PORTS := f.savedUdp]
       [CONFIG_SAVED_TCP_PORTS := f.savedTcp][CONFIG_SAVED_FMC_PORTS := f.savedFmc])
  }

  /** One call with the link enabled. `elapsed` says that the check interval has passed. */
  function FmcStep(f: Fmc, l: Link, elapsed: bool): (r: (Fmc, Link))
    requires FmcOk(f)
    ensures FmcOk(r.0)
  {
    match f.fsm
    case LinkIdle => (f.(fsm := LinkWait), l)
    case LinkWait =>
      (if f.needConfig then f.(fsm := UpdateConfig)
       else if f.needMrt then f.(fsm := UpdateMrt, copyIndex := 0)
       else if elapsed then f.(fsm := UpdateState, requestCnt := 0)
       else f, l)
    case UpdateConfig => (f.(needConfig := false, fsm := LinkIdle), ConfigWritten(l, f))
    case UpdateMrt =>
      var l1 := l.(mrt := l.mrt[f.copyIndex := f.mrt[f.copyIndex]]);
      var next := f.copyIndex + 1;
      if next > MAX_MRT_SIZE || next > f.maxNode then
        (f.(copyIndex := next, needMrt := false, fsm := LinkIdle),
            l1.(config := l1.config[CONFIG_MRT_VERSION := f.version]))
      else (f.(copyIndex := next), l1)
    case UpdateState =>
      var s := f.nalStatus[f.requestCnt := l.status[f.requestCnt]];
      var g := f.(nalStatus := s, requestCnt := f.requestCnt + 1);
      (if g.requestCnt < WORDS then g
       else if s[STATUS_MRT_VERSION] != f.version then g.(needMrt := true, needConfig := true, fsm := LinkWait)
       else if s[STATUS_OWN_RANK] != f.rank then g.(needConfig := true, fsm := LinkWait)
       else g.(fsm := UpdateSavedState), l)
    case UpdateSavedState =>
      (f.(savedUdp := f.nalStatus[STATUS_OPEN_UDP_PORTS], savedTcp := f.nalStatus[STATUS_OPEN_TCP_PORTS],
          savedFmc := f.nalStatus[STATUS_FMC_PORT_PROCESSED], fsm := LinkIdle), l)
  }

  class LinkController {
    const currentMrt: array<nat>
    const nalStatus: array<nat>
    var version: nat
    var maxDiscoveredNodeId: nat
    var nodeRank: nat
    var savedUdp: nat
    var savedTcp: nat
    var savedFmc: nat
    var fsm: LinkFsm
    var mrtCopyIndex: nat
    var requestCnt: nat
    var needToUpdateMrt: bool
    var needToUpdateConfig: bool

    ghost predicate Sized() {
      currentMrt.Length == MAX_MRT_SIZE && nalStatus.Length == WORDS && currentMrt != nalStatus
    }

    ghost function View(): Fmc
      reads this, currentMrt, nalStatus
      requires Sized()
    {
      Fmc(version, currentMrt[..], maxDiscoveredNodeId, nodeRank, savedUdp, savedTcp, savedFmc,
          fsm, mrtCopyIndex, requestCnt, needToUpdateMrt, needToUpdateConfig, nalStatus[..])
    }

    ghost predicate Valid()
      reads this, currentMrt, nalStatus
    {
      Sized() && FmcOk(View())
    }

    constructor (rank: nat)
      ensures Valid() && fresh(currentMrt) && fresh(nalStatus) && version == 0 && fsm == LinkWait && nodeRank == rank
      ensures !needToUpdateMrt && maxDiscoveredNodeId == 0 && nalStatus[STATUS_MRT_VERSION] == 0
    {
      currentMrt, nalStatus := new nat[MAX_MRT_SIZE](_ => 0), new nat[WORDS](_ => 0);
      version, maxDiscoveredNodeId, nodeRank, savedUdp, savedTcp, savedFmc := 0, 0, rank, 0, 0, 0;
      fsm, mrtCopyIndex, requestCnt, needToUpdateMrt, needToUpdateConfig := LinkWait, 0, 0, false, false;
    }

    ghost predicate Apart(ctrl: LinkMemory)
      reads this
    {
      ctrl.Valid() && ctrl.words != currentMrt && ctrl.words != nalStatus
    }

    method WriteConfigWords(ctrl: LinkMemory)
      requires Valid() && Apart(ctrl) && fsm.UpdateConfig?
      modifies this`needToUpdateConfig, this`fsm, ctrl.words
      ensures Valid() && (View(), ctrl.View()) == FmcStep(old(View()), old(ctrl.View()), false)
    {
      ctrl.WriteConfig(CONFIG_OWN_RANK, nodeRank);
      ctrl.WriteConfig(CONFIG_SAVED_UDP_PORTS, savedUdp);
      ctrl.WriteConfig(CONFIG_SAVED_TCP_PORTS, savedTcp);
      ctrl.WriteConfig(CONFIG_SAVED_FMC_PORTS, savedFmc);
      needToUpdateConfig, fsm := false, LinkIdle;
    }

    /** One row per call; the version follows the last row. */
    method WriteMrtRow(ctrl: LinkMemory)
      requires Valid() && Apart(ctrl) && fsm.UpdateMrt?
      modifies this`mrtCopyIndex, this`needToUpdateMrt, this`fsm, ctrl.words
      ensures Valid() && (View(), ctrl.View()) == FmcStep(old(View()), old(ctrl.View()), false)
    {
      ctrl.WriteMrt(mrtCopyIndex, currentMrt[mrtCopyIndex]);
      mrtCopyIndex := mrtCopyIndex + 1;
      if mrtCopyIndex > MAX_MRT_SIZE || mrtCopyIndex > maxDiscoveredNodeId {
        ctrl.WriteConfig(CONFIG_MRT_VERSION, version);
        needToUpdateMrt, fsm := false, LinkIdle;
      }
    }

    /** One status word per call; the comparison follows the last word. */
    method ReadStatusWord(ctrl: LinkMemory)
      requires Valid() && Apart(ctrl) && fsm.UpdateState?
      modifies this`requestCnt, this`needToUpdateMrt, this`needToUpdateConfig, this`fsm, nalStatus
      ensures Valid() && (View(), ctrl.View()) == FmcStep(old(View()), old(ctrl.View()), false)
    {
      ghost var s := nalStatus[..];
      nalStatus[requestCnt] := ctrl.words[WORDS + requestCnt];
      assert nalStatus[..] == s[requestCnt := ctrl.View().status[requestCnt]];
      requestCnt := requestCnt + 1;
      if requestCnt >= WORDS {
        if nalStatus[STATUS_MRT_VERSION] != version {
          needToUpdateMrt, needToUpdateConfig, fsm := true, true, LinkWait;
        } else if nalStatus[STATUS_OWN_RANK] != nodeRank {
          needToUpdateConfig, fsm := true, LinkWait;
        } else {
          fsm := UpdateSavedState;
        }
      }
    }

    method Step(ctrl: LinkMemory, elapsed: bool)
      requires Valid() && Apart(ctrl)
      modifies this, nalStatus, ctrl.words
      ensures Valid() && (View(), ctrl.View()) == FmcStep(old(View()), old(ctrl.View()), elapsed)
    {
      match fsm
      case LinkIdle => fsm := LinkWait;
      case LinkWait =>
        if needToUpdateConfig {
          fsm := UpdateConfig;
        } else if needToUpdateMrt {
          mrtCopyIndex, fsm := 0, UpdateMrt;
        } else if elapsed {
          requestCnt, fsm := 0, UpdateState;
        }
      case UpdateConfig => WriteConfigWords(ctrl);
      case UpdateMrt => WriteMrtRow(ctrl);
      case UpdateState => ReadStatusWord(ctrl);
      case UpdateSavedState =>
        savedUdp := nalStatus[STATUS_OPEN_UDP_PORTS];
        savedTcp := nalStatus[STATUS_OPEN_TCP_PORTS];
        savedFmc := nalStatus[STATUS_FMC_PORT_PROCESSED];
        fsm := LinkIdle;
    }
  }

  // ---- The AXI4-Lite process ----

  datatype A4lFsm = StatusUpdate | CopyConfig | CopyConfig2 | CopyMrt | CopyStatus | CopyFinish | WaitForSubFsms

  datatype Bcast = CbWait | CbStart | Cb1 | Cb2 | Cb30 | Cb31 | Cb32

  /** `selectConfigUpdatePropagation`. */
  function Propagation(address: nat): nat {
    if address == CONFIG_OWN_RANK then 3
    else if address == CONFIG_SAVED_FMC_PORTS || address == CONFIG_SAVED_TCP_PORTS
        || address == CONFIG_SAVED_UDP_PORTS then 2
    else 0
  }

  datatype A4l = A4l(index: nat, fsm: A4lFsm, cb: Bcast, mb: Bcast, processed: nat, config: Registers,
                     status: Registers, mrt: Table, newWord: nat, configProp: nat, update: Update)

  /** The streams between the processes. */
  datatype Streams = Streams(portLogic: seq<Update>, udpRx: seq<Update>, tcpRx: seq<Update>, statusProc: seq<Update>,
                             mrt: seq<Update>, version0: seq<nat>, version1: seq<nat>, status: seq<Update>)

  /** Which bounded streams have no room. */
  datatype Full = Full(portLogic: bool, udpRx: bool, tcpRx: bool, statusProc: bool, version0: bool, version1: bool)

  ghost predicate A4lOk(a: A4l) {
    && (a.fsm.CopyConfig? || a.fsm.CopyConfig2? || a.fsm.CopyStatus? ==> a.index < WORDS)
    && (a.fsm.CopyMrt? ==> a.index < MAX_MRT_SIZE)
    && (a.fsm.StatusUpdate? || a.fsm.WaitForSubFsms? ==> a.index == 0)
  }

  ghost predicate StatusAddresses(q: seq<Update>) {
    forall k | 0 <= k < |q| :: q[k].address < WORDS
  }

  function NextConfig(a: A4l): A4l {
    if a.index + 1 >= WORDS then a.(index := 0, fsm := CopyMrt) else a.(index := a.index + 1, fsm := CopyConfig)
  }

  /** The main switch of the process. */
  function MainStep(a: A4l, l: Link, q: Streams): (r: (A4l, Link, Streams))
    requires A4lOk(a) && StatusAddresses(q.status)
    ensures A4lOk(r.0) && StatusAddresses(r.2.status)
  {
    match a.fsm
    case StatusUpdate =>
      if q.status != [] then
        (a.(status := a.status[q.status[0].address := q.status[0].value]), l, q.(status := q.status[1..]))
      else (a.(fsm := CopyConfig), l, q)
    case CopyConfig =>
      var word := l.config[a.index];
      (if word != a.config[a.index] then
         a.(newWord := word, configProp := Propagation(a.index), update := Update(a.index, word), cb := CbStart,
             fsm := CopyConfig2)
       else NextConfig(a.(newWord := word)), l, q)
    case CopyConfig2 =>
      (if a.cb.CbWait? then NextConfig(a.(config := a.config[a.index := a.newWord])) else a, l, q)
    case CopyMrt =>
      var row := l.mrt[a.index];
      var a1 := if a.index + 1 >= MAX_MRT_SIZE then a.(index := 0, fsm := CopyStatus) else a.(index := a.index + 1);
      if row != a.mrt[a.index] then
        (a1.(mrt := a.mrt[a.index := row]), l, q.(mrt := q.mrt + [Update(a.index, row)] + [Update(a.index, row)]))
      else (a1, l, q)
    case CopyStatus =>
      (a.(index := a.index + 1, fsm := if a.index + 1 >= WORDS then CopyFinish else CopyStatus),
       l.(status := l.status[a.index := a.status[a.index]]), q)
    case CopyFinish =>
      var version := a.config[CONFIG_MRT_VERSION];
      var b := a.(index := 0, fsm := WaitForSubFsms);
      (if version != a.processed then b.(mb := CbStart, processed := version) else b, l, q)
    case WaitForSubFsms =>
      (if a.mb.CbWait? && a.cb.CbWait? then a.(fsm := StatusUpdate) else a, l, q)
  }

  /** The configuration broadcast. */
  function BroadcastStep(a: A4l, q: Streams, full: Full): (r: (A4l, Streams))
    ensures r.0.fsm == a.fsm && r.0.index == a.index && r.1.status == q.status
  {
    match a.cb
    case CbStart =>
      (a.(cb := if a.configProp == 1 then Cb1 else if a.configProp == 2 then Cb2
                else if a.configProp == 3 then Cb30 else CbWait), q)
    case Cb1 => (a.(cb := CbWait), q)
    case Cb2 => if full.portLogic then (a, q) else (a.(cb := CbWait), q.(portLogic := q.portLogic + [a.update]))
    case Cb30 => if full.udpRx then (a, q) else (a.(cb := Cb31), q.(udpRx := q.udpRx + [a.update]))
    case Cb31 => if full.tcpRx then (a, q) else (a.(cb := Cb32), q.(tcpRx := q.tcpRx + [a.update]))
    case Cb32 => if full.statusProc then (a, q) else (a.(cb := CbWait), q.(statusProc := q.statusProc + [a.update]))
    case CbWait => (a, q)
  }

  /** The version broadcast: first to the cache invalidation, then to the status memory. */
  function VersionStep(a: A4l, q: Streams, full: Full): (r: (A4l, Streams))
    ensures r.0.fsm == a.fsm && r.0.index == a.index && r.1.status == q.status
  {
    match a.mb
    case CbStart => (a.(mb := Cb1), q)
    case Cb1 => if full.version0 then (a, q) else (a.(mb := Cb2), q.(version0 := q.version0 + [a.processed]))
    case Cb2 => if full.version1 then (a, q) else (a.(mb := CbWait), q.(version1 := q.version1 + [a.processed]))
    case _ => (a, q)
  }

  function SubSteps(a: A4l, q: Streams, full: Full): (r: (A4l, Streams))
    ensures r.0.fsm == a.fsm && r.0.index == a.index && r.1.status == q.status
  {
    var b := BroadcastStep(a, q, full);
    VersionStep(b.0, b.1, full)
  }

  /** One call of `axi4liteProcessing` after the initialisation. */
  function A4lStep(a: A4l, l: Link, q: Streams, full: Full): (r: (A4l, Link, Streams))
    requires A4lOk(a) && StatusAddresses(q.status)
    ensures A4lOk(r.0) && StatusAddresses(r.2.status)
  {
    var m := MainStep(a, l, q);
    var s := SubSteps(m.0, m.2, full);
    (s.0, m.1, s.1)
  }

  class A4lProcess {
    const config: array<nat>
    const status: array<nat>
    const localMrt: array<nat>
    var tableCopyVariable: nat
    var fsm: A4lFsm
    var cbFsm: Bcast
    var mbFsm: Bcast
    var processedMrtVersion: nat
    var newWord: nat
    var configProp: nat
    var update: Update

    ghost predicate Sized() {
      && config.Length == WORDS && status.Length == WORDS && localMrt.Length == MAX_MRT_SIZE
      && config != status && config != localMrt && status != localMrt
    }

    ghost function View(): A4l
      reads this, config, status, localMrt
      requires Sized()
    {
      A4l(tableCopyVariable, fsm, cbFsm, mbFsm, processedMrtVersion, config[..], status[..], localMrt[..],
          newWord, configProp, update)
    }

    ghost predicate Valid()
      reads this, config, status, localMrt
    {
      Sized() && A4lOk(View())
    }

    ghost predicate Apart(ctrl: LinkMemory)
      reads this
    {
      ctrl.Valid() && ctrl.words != config && ctrl.words != status && ctrl.words != localMrt
    }

    /** The state after the call that initialises the tables. */
    constructor ()
      ensures Valid() && fresh(config) && fresh(status) && fresh(localMrt)
      ensures fsm == CopyConfig && cbFsm == mbFsm == CbWait && processedMrtVersion == tableCopyVariable == 0
      ensures forall i | 0 <= i < MAX_MRT_SIZE :: localMrt[i] == MRT_MARKER
      ensures forall i | 0 <= i < WORDS :: config[i] == status[i] == 0
    {
      config, status := new nat[WORDS](_ => 0), new nat[WORDS](_ => 0);
      localMrt := new nat[MAX_MRT_SIZE](_ => MRT_MARKER);
      tableCopyVariable, fsm, cbFsm, mbFsm, processedMrtVersion := 0, CopyConfig, CbWait, CbWait, 0;
      newWord, configProp, update := 0, 0, Update(0, 0);
    }

    method ConfigWordDone()
      requires Valid() && tableCopyVariable < WORDS
      modifies this`tableCopyVariable, this`fsm
      ensures Valid() && View() == NextConfig(old(View()))
    {
      tableCopyVariable := tableCopyVariable + 1;
      if tableCopyVariable >= WORDS {
        tableCopyVariable, fsm := 0, CopyMrt;
      } else {
        fsm := CopyConfig;
      }
    }

    /** The states that read the configuration. */
    method CopyConfigWord(ctrl: LinkMemory, ghost q: Streams)
      requires Valid() && Apart(ctrl) && (fsm.CopyConfig? || fsm.CopyConfig2?) && StatusAddresses(q.status)
      modifies this, config
      ensures Valid() && (View(), ctrl.View(), q) == MainStep(old(View()), ctrl.View(), q)
    {
      if fsm.CopyConfig? {
        newWord := ctrl.words[tableCopyVariable];
        if newWord != config[tableCopyVariable] {
          configProp := Propagation(tableCopyVariable);
          update, cbFsm, fsm := Update(tableCopyVariable, newWord), CbStart, CopyConfig2;
        } else {
          ConfigWordDone();
        }
      } else if cbFsm.CbWait? {
        config[tableCopyVariable] := newWord;
        ConfigWordDone();
      }
    }

    /** Copying one row: a changed row is announced twice. */
    method CopyMrtRow(ctrl: LinkMemory, q: Streams) returns (r: Streams)
      requires Valid() && Apart(ctrl) && fsm.CopyMrt? && StatusAddresses(q.status)
      modifies this`tableCopyVariable, this`fsm, localMrt
      ensures Valid() && (View(), ctrl.View(), r) == MainStep(old(View()), ctrl.View(), q)
    {
      r := q;
      var newIp4Node := ctrl.words[tableCopyVariable + WORDS + WORDS];
      assert newIp4Node == ctrl.View().mrt[tableCopyVariable];
      if newIp4Node != localMrt[tableCopyVariable] {
        var mu := Update(tableCopyVariable, newIp4Node);
        r := r.(mrt := r.mrt + [mu]);
        localMrt[tableCopyVariable] := newIp4Node;
        r := r.(mrt := r.mrt + [mu]);
      }
      tableCopyVariable := tableCopyVariable + 1;
      if tableCopyVariable >= MAX_MRT_SIZE {
        tableCopyVariable, fsm := 0, CopyStatus;
      }
    }

    method CopyStatusWord(ctrl: LinkMemory, ghost q: Streams)
      requires Valid() && Apart(ctrl) && fsm.CopyStatus? && StatusAddresses(q.status)
      modifies this`tableCopyVariable, this`fsm, ctrl.words
      ensures Valid() && (View(), ctrl.View(), q) == MainStep(old(View()), old(ctrl.View()), q)
    {
      ctrl.WriteStatus(tableCopyVariable, status[tableCopyVariable]);
      tableCopyVariable := tableCopyVariable + 1;
      if tableCopyVariable >= WORDS {
        fsm := CopyFinish;
      }
    }

    method ApplyStatus(q: Streams, ghost l: Link) returns (r: Streams)
      requires Valid() && fsm.StatusUpdate? && StatusAddresses(q.status)
      modifies this`fsm, status
      ensures Valid() && (View(), l, r) == MainStep(old(View()), l, q)
    {
      r := q;
      if q.status != [] {
        status[q.status[0].address] := q.status[0].value;
        r := q.(status := q.status[1..]);
      } else {
        fsm := CopyConfig;
      }
    }

    method FinishCopy(ghost l: Link, ghost q: Streams)
      requires Valid() && (fsm.CopyFinish? || fsm.WaitForSubFsms?) && StatusAddresses(q.status)
      modifies this`tableCopyVariable, this`fsm, this`mbFsm, this`processedMrtVersion
      ensures Valid() && (View(), l, q) == MainStep(old(View()), l, q)
    {
      if fsm.CopyFinish? {
        tableCopyVariable := 0;
        var newMrtVersion := config[CONFIG_MRT_VERSION];
        if newMrtVersion != processedMrtVersion {
          mbFsm, processedMrtVersion := CbStart, newMrtVersion;
        }
        fsm := WaitForSubFsms;
      } else if mbFsm.CbWait? && cbFsm.CbWait? {
        fsm := StatusUpdate;
      }
    }

    method Broadcast(q: Streams, full: Full) returns (r: Streams)
      requires Valid()
      modifies this`cbFsm
      ensures Valid() && (View(), r) == BroadcastStep(old(View()), q, full)
    {
      r := q;
      match cbFsm
      case CbWait =>
      case CbStart =>
        cbFsm := if configProp == 1 then Cb1 else if configProp == 2 then Cb2 else if configProp == 3 then Cb30
            else CbWait;
      case Cb1 => cbFsm := CbWait;
      case Cb2 =>
        if !full.portLogic {
          r, cbFsm := q.(portLogic := q.portLogic + [update]), CbWait;
        }
      case Cb30 =>
        if !full.udpRx {
          r, cbFsm := q.(udpRx := q.udpRx + [update]), Cb31;
        }
      case Cb31 =>
        if !full.tcpRx {
          r, cbFsm := q.(tcpRx := q.tcpRx + [update]), Cb32;
        }
      case Cb32 =>
        if !full.statusProc {
          r, cbFsm := q.(statusProc := q.statusProc + [update]), CbWait;
        }
    }

    method BroadcastVersion(q: Streams, full: Full) returns (r: Streams)
      requires Valid()
      modifies this`mbFsm
      ensures Valid() && (View(), r) == VersionStep(old(View()), q, full)
    {
      r := q;
      if mbFsm.CbStart? {
        mbFsm := Cb1;
      } else if mbFsm.Cb1? && !full.version0 {
        r, mbFsm := q.(version0 := q.version0 + [processedMrtVersion]), Cb2;
      } else if mbFsm.Cb2? && !full.version1 {
        r, mbFsm := q.(version1 := q.version1 + [processedMrtVersion]), CbWait;
      }
    }

    /** The three switches of one call. */
    method Step(ctrl: LinkMemory, q: Streams, full: Full) returns (r: Streams)
      requires Valid() && Apart(ctrl) && StatusAddresses(q.status)
      modifies this, config, status, localMrt, ctrl.words
      ensures Valid() && (View(), ctrl.View(), r) == A4lStep(old(View()), old(ctrl.View()), q, full)
    {
      hide MainStep, BroadcastStep, VersionStep;
      r := q;
      match fsm {
        case StatusUpdate => r := ApplyStatus(q, ctrl.View());
        case CopyConfig => CopyConfigWord(ctrl, q);
        case CopyConfig2 => CopyConfigWord(ctrl, q);
        case CopyMrt => r := CopyMrtRow(ctrl, q);
        case CopyStatus => CopyStatusWord(ctrl, q);
        case _ => FinishCopy(ctrl.View(), q);
      }
      r := Broadcast(r, full);
      r := BroadcastVersion(r, full);
    }
  }
}
