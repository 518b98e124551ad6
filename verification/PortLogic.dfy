/** The port FSM of the network abstraction layer, which turns the role's one-hot port vectors into open and close
    requests, one bit at a time. */
module PortLogic {
  import opened PortVectors
  import B = PortBits
  import N = NalLink

  const NAL_RX_MIN_PORT: bv32 := 2718

  datatype Fsm =
    | Reset | Idle | L4Reset | L7Reset | NewFmcReq | NewFmcRep | NewUdpReq | NewUdpRep | NewTcpReq | NewTcpRep
    | StartUdpCls | StartTcpCls1 | WaitPr | StartTcpCls2 | SendUpdate

  datatype Kind = Fmc | Udp | Tcp

  /** What the process writes to its output streams. */
  datatype Signal =
    | OpenUdp(port: Vector) | OpenTcp(port: Vector) | CloseUdp(port: Vector) | MarkToDelete | StartClose
    | Notify(kind: Kind, value: Vector)

  datatype ConfigUpdate = ConfigUpdate(address: nat, value: Vector)

  /** The inputs of one call: signals, port vectors, the heads of the input streams, and which outputs are full. */
  datatype Inputs = Inputs(layer4: bool, layer7: bool, decoupled: bool, ntsReady: bool,
                           fmcPort: Vector, udpPorts: Vector, tcpPorts: Vector,
                           config: seq<ConfigUpdate>, udpFeedback: seq<bool>, tcpFeedback: seq<bool>,
                           openUdpFull: bool, openTcpFull: bool, closeFull: bool, markFull: bool, startFull: bool,
                           updateFull: bool)

  /** The state. The last four components are histories: open requests not yet answered, the UDP bits confirmed
      or restored since the record was last zero, and the numbers of mark and start-close signals. */
  datatype State = State(fsm: Fsm, stabilize: nat, fmc: Vector, udp: Vector, tcp: Vector, bitUdp: Vector,
                         bitTcp: Vector, requested: Vector, update: Signal,
                         outstanding: int, confirmed: Vector, marks: nat, starts: nat)

  function PortOf(p: Vector): Vector {
    Vector(NAL_RX_MIN_PORT + p.bits)
  }

  lemma PortOfIs(p: Vector)
    ensures PortOf(p).bits == 2718 + p.bits
  {
  }

  function WithUdp(s: State, udp: Vector, added: Vector): State {
    s.(udp := udp, confirmed := if udp == ZERO then ZERO else Union(s.confirmed, added))
  }

  function Restore(s: State, u: ConfigUpdate): State {
    if u.address == N.CONFIG_SAVED_FMC_PORTS && s.fmc == ZERO then s.(fmc := Low16(u.value))
    else if u.address == N.CONFIG_SAVED_UDP_PORTS && s.udp == ZERO then WithUdp(s, u.value, u.value)
    else if u.address == N.CONFIG_SAVED_TCP_PORTS && s.tcp == ZERO then s.(tcp := u.value)
    else s
  }

  function IdleStep(s: State, i: Inputs): State {
    if i.config != [] then Restore(s, i.config[0])
    else if !i.layer4 || !i.ntsReady then s.(fsm := L4Reset)
    else if s.fmc != i.fmcPort then s.(fsm := NewFmcReq)
    else if !i.layer7 || i.decoupled then s.(fsm := L7Reset)
    else if s.udp != i.udpPorts then s.(fsm := NewUdpReq)
    else if s.tcp != i.tcpPorts then s.(fsm := NewTcpReq)
    else s
  }

  function L4Step(s: State, i: Inputs): (State, seq<Signal>) {
    if !i.updateFull && s.fmc != ZERO then (s.(fmc := ZERO), [Notify(Fmc, ZERO)])
    else if !i.updateFull && s.udp != ZERO then (WithUdp(s, ZERO, ZERO), [Notify(Udp, ZERO)])
    else if !i.updateFull && s.tcp != ZERO then (s.(tcp := ZERO), [Notify(Tcp, ZERO)])
    else if i.layer4 && i.ntsReady then (WithUdp(s.(fmc := ZERO, tcp := ZERO, fsm := Idle), ZERO, ZERO), [])
    else (s, [])
  }

  /** Closing one UDP port per call. */
  function CloseStep(s: State): (State, seq<Signal>) {
    if s.udp == ZERO then (s.(update := Notify(Udp, ZERO), fsm := SendUpdate), []) else
      var p := Lowest(s.udp);
      var rest := Cleared(s.udp, p);
      var t := WithUdp(s, rest, ZERO);
      (if rest == ZERO then t.(update := Notify(Udp, ZERO), fsm := SendUpdate) else t, [CloseUdp(PortOf(p))])
  }

  function UdpRequest(s: State, i: Inputs): (State, seq<Signal>) {
    var diff := Missing(s.udp, i.udpPorts);
    if diff != ZERO then
      (s.(bitUdp := Lowest(diff), fsm := NewUdpRep, outstanding := s.outstanding + 1), [OpenUdp(PortOf(Lowest(diff)))])
    else (WithUdp(s.(fsm := Idle), i.udpPorts, ZERO), [])
  }

  function TcpRequest(s: State, i: Inputs): (State, seq<Signal>) {
    var diff := Missing(s.tcp, i.tcpPorts);
    if diff != ZERO then
      (s.(bitTcp := Lowest(diff), fsm := NewTcpRep, outstanding := s.outstanding + 1), [OpenTcp(PortOf(Lowest(diff)))])
    else (s.(tcp := i.tcpPorts, fsm := Idle), [])
  }

  function UdpReply(s: State, success: bool): State {
    var udp := if success then Opened(s.udp, s.bitUdp) else s.udp;
    WithUdp(s, udp, if success then At(s.bitUdp) else ZERO)
    .(update := Notify(Udp, udp), fsm := SendUpdate, outstanding := s.outstanding - 1)
  }

  function TcpReply(s: State, success: bool): State {
    var tcp := if success then Opened(s.tcp, s.bitTcp) else s.tcp;
    s.(tcp := tcp, update := Notify(Tcp, tcp), fsm := SendUpdate, outstanding := s.outstanding - 1)
  }

  function FmcReply(s: State, success: bool): State {
    var fmc := if success then s.requested else s.fmc;
    s.(fmc := fmc, update := Notify(Fmc, fmc), fsm := SendUpdate, outstanding := s.outstanding - 1)
  }

  function L7Step(s: State, i: Inputs): State {
    s.(fsm := if !i.layer4 || !i.ntsReady then L4Reset else if s.udp != ZERO then StartUdpCls
              else if s.tcp != ZERO then StartTcpCls1 else Idle)
  }

  /** Marking the sessions, waiting for the end of a partial reconfiguration, starting to close. */
  function CloseTcpStep(s: State, i: Inputs): (State, seq<Signal>) {
    if s.fsm.StartTcpCls1? && !i.markFull then
      (s.(fsm := if i.decoupled then WaitPr else StartTcpCls2, marks := s.marks + 1), [MarkToDelete])
    else if s.fsm.WaitPr? && !i.decoupled then (s.(fsm := StartTcpCls2), [])
    else if s.fsm.StartTcpCls2? && !i.startFull then
      (s.(tcp := ZERO, update := Notify(Tcp, ZERO), fsm := SendUpdate, starts := s.starts + 1), [StartClose])
    else (s, [])
  }

  function FmcRequest(s: State, i: Inputs): (State, seq<Signal>) {
    (s.(requested := i.fmcPort, fsm := NewFmcRep, outstanding := s.outstanding + 1), [OpenTcp(i.fmcPort)])
  }

  /** One call. */
  function Step(s: State, i: Inputs): (State, seq<Signal>) {
    match s.fsm
    case Reset => (if s.stabilize > 0 then s.(stabilize := s.stabilize - 1) else s.(fsm := Idle), [])
    case Idle => (IdleStep(s, i), [])
    case L4Reset => L4Step(s, i)
    case L7Reset => (L7Step(s, i), [])
    case StartUdpCls => if i.closeFull then (s, []) else CloseStep(s)
    case StartTcpCls1 => CloseTcpStep(s, i)
    case WaitPr => CloseTcpStep(s, i)
    case StartTcpCls2 => CloseTcpStep(s, i)
    case NewFmcReq => if i.openTcpFull then (s, []) else FmcRequest(s, i)
    case NewFmcRep => if i.tcpFeedback == [] then (s, []) else (FmcReply(s, i.tcpFeedback[0]), [])
    case NewUdpReq => if i.openUdpFull then (s, []) else UdpRequest(s, i)
    case NewUdpRep => if i.udpFeedback == [] then (s, []) else (UdpReply(s, i.udpFeedback[0]), [])
    case NewTcpReq => if i.openTcpFull then (s, []) else TcpRequest(s, i)
    case NewTcpRep => if i.tcpFeedback == [] then (s, []) else (TcpReply(s, i.tcpFeedback[0]), [])
    case SendUpdate => if i.updateFull then (s, []) else (s.(fsm := Idle), [s.update])
  }

  class PortProcess {
    var fsm: Fsm
    var stabilizeCounter: nat
    var processedFmc: Vector
    var udpProcessed: Vector
    var tcpProcessed: Vector
    var newRelativePortUdp: Vector
    var newRelativePortTcp: Vector
    var currentRequestedPort: Vector
    var currentUpdate: Signal
    ghost var outstanding: int
    ghost var confirmed: Vector
    ghost var marks: nat
    ghost var starts: nat

    ghost function View(): State
      reads this
    {
      State(fsm, stabilizeCounter, processedFmc, udpProcessed, tcpProcessed, newRelativePortUdp, newRelativePortTcp,
            currentRequestedPort, currentUpdate, outstanding, confirmed, marks, starts)
    }

    constructor (stabilizeTime: nat)
      ensures fsm == Reset && stabilizeCounter == stabilizeTime
      ensures processedFmc == udpProcessed == tcpProcessed == confirmed == ZERO && outstanding == 0
              && marks == starts == 0
    {
      fsm, stabilizeCounter, processedFmc, udpProcessed, tcpProcessed := Reset, stabilizeTime, ZERO, ZERO, ZERO;
      newRelativePortUdp, newRelativePortTcp, currentRequestedPort, currentUpdate := ZERO, ZERO, ZERO,
          Notify(Fmc, ZERO);
      outstanding, confirmed, marks, starts := 0, ZERO, 0, 0;
    }

    /** Setting the UDP record; `added` are the bits confirmed or restored with it. */
    method SetUdp(udp: Vector, ghost added: Vector)
      modifies this`udpProcessed, this`confirmed
      ensures View() == WithUdp(old(View()), udp, added)
    {
      udpProcessed := udp;
      confirmed := if udp == ZERO then ZERO else Union(confirmed, added);
    }

    method RestoreSaved(ca: ConfigUpdate)
      modifies this`processedFmc, this`udpProcessed, this`tcpProcessed, this`confirmed
      ensures View() == Restore(old(View()), ca)
    {
      hide Low16, Union;
      if ca.address == N.CONFIG_SAVED_FMC_PORTS {
        if processedFmc == ZERO {
          processedFmc := Low16(ca.value);
        }
      } else if ca.address == N.CONFIG_SAVED_UDP_PORTS {
        if udpProcessed == ZERO {
          SetUdp(ca.value, ca.value);
        }
      } else if ca.address == N.CONFIG_SAVED_TCP_PORTS {
        if tcpProcessed == ZERO {
          tcpProcessed := ca.value;
        }
      }
    }

    method LeaveIdle(i: Inputs)
      requires fsm == Idle
      modifies this
      ensures View() == IdleStep(old(View()), i)
    {
      hide Restore;
      if i.config != [] {
        RestoreSaved(i.config[0]);
      } else if !i.layer4 || !i.ntsReady {
        fsm := L4Reset;
      } else if processedFmc != i.fmcPort {
        fsm := NewFmcReq;
      } else if !i.layer7 || i.decoupled {
        fsm := L7Reset;
      } else if udpProcessed != i.udpPorts {
        fsm := NewUdpReq;
      } else if tcpProcessed != i.tcpPorts {
        fsm := NewTcpReq;
      }
    }

    method ResetLayer4(i: Inputs) returns (out: seq<Signal>)
      modifies this
      ensures (View(), out) == L4Step(old(View()), i)
    {
      out := [];
      if !i.updateFull && (processedFmc != ZERO || udpProcessed != ZERO || tcpProcessed != ZERO) {
        if processedFmc != ZERO {
          out := [Notify(Fmc, ZERO)];
          processedFmc := ZERO;
        } else if udpProcessed != ZERO {
          out := [Notify(Udp, ZERO)];
          SetUdp(ZERO, ZERO);
        } else if tcpProcessed != ZERO {
          out := [Notify(Tcp, ZERO)];
          tcpProcessed := ZERO;
        }
      } else if i.layer4 && i.ntsReady {
        processedFmc, tcpProcessed := ZERO, ZERO;
        SetUdp(ZERO, ZERO);
        fsm := Idle;
      }
    }

    method CloseUdpPort() returns (out: seq<Signal>)
      modifies this
      ensures (View(), out) == CloseStep(old(View()))
    {
      hide At, Lowest, PortOf, Cleared, Union, Missing;
      out := [];
      if udpProcessed != ZERO {
        var pos := B.GetRightmostBitPos(udpProcessed.bits);
        var newRelativePortToClose := Vector(pos);
        LowestComputed(udpProcessed, pos);
        out := [CloseUdp(PortOf(newRelativePortToClose))];
        SetUdp(Cleared(udpProcessed, newRelativePortToClose), ZERO);
      }
      if udpProcessed == ZERO {
        currentUpdate, fsm := Notify(Udp, ZERO), SendUpdate;
      }
    }

    method RequestUdp(i: Inputs) returns (out: seq<Signal>)
      modifies this
      ensures (View(), out) == UdpRequest(old(View()), i)
    {
      hide At, Lowest, PortOf, Cleared, Union, Missing;
      out := [];
      var diff := Vector(udpProcessed.bits ^ (udpProcessed.bits | i.udpPorts.bits));
      MissingComputed(udpProcessed, i.udpPorts);
      if diff != ZERO {
        var pos := B.GetRightmostBitPos(diff.bits);
        var p := Vector(pos);
        LowestComputed(diff, pos);
        newRelativePortUdp, fsm, outstanding, out := p, NewUdpRep, outstanding + 1, [OpenUdp(PortOf(p))];
      } else {
        SetUdp(i.udpPorts, ZERO);
        fsm := Idle;
      }
    }

    method RequestTcp(i: Inputs) returns (out: seq<Signal>)
      modifies this
      ensures (View(), out) == TcpRequest(old(View()), i)
    {
      hide At, Lowest, PortOf, Cleared, Union, Missing;
      out := [];
      var diff := Vector(tcpProcessed.bits ^ (tcpProcessed.bits | i.tcpPorts.bits));
      MissingComputed(tcpProcessed, i.tcpPorts);
      if diff != ZERO {
        var pos := B.GetRightmostBitPos(diff.bits);
        var p := Vector(pos);
        LowestComputed(diff, pos);
        newRelativePortTcp, fsm, outstanding, out := p, NewTcpRep, outstanding + 1, [OpenTcp(PortOf(p))];
      } else {
        tcpProcessed, fsm := i.tcpPorts, Idle;
      }
    }

    /** The reply to the outstanding open request. */
    method Answer(fed: bool)
      requires fsm == NewUdpRep || fsm == NewTcpRep || fsm == NewFmcRep
      modifies this
      ensures View() == if old(fsm) == NewUdpRep then UdpReply(old(View()), fed)
                        else if old(fsm) == NewTcpRep then TcpReply(old(View()), fed)
                        else FmcReply(old(View()), fed)
    {
      hide At, Opened, Union;
      if fsm == NewUdpRep {
        SetUdp(if fed then Opened(udpProcessed, newRelativePortUdp) else udpProcessed,
            if fed then At(newRelativePortUdp) else ZERO);
        currentUpdate := Notify(Udp, udpProcessed);
      } else if fsm == NewTcpRep {
        if fed {
          tcpProcessed := Opened(tcpProcessed, newRelativePortTcp);
        }
        currentUpdate := Notify(Tcp, tcpProcessed);
      } else {
        if fed {
          processedFmc := currentRequestedPort;
        }
        currentUpdate := Notify(Fmc, processedFmc);
      }
      fsm, outstanding := SendUpdate, outstanding - 1;
    }

    method CloseTcp(i: Inputs) returns (out: seq<Signal>)
      requires fsm == StartTcpCls1 || fsm == WaitPr || fsm == StartTcpCls2
      modifies this`fsm, this`marks, this`starts, this`tcpProcessed, this`currentUpdate
      ensures (View(), out) == CloseTcpStep(old(View()), i)
    {
      out := [];
      if fsm == StartTcpCls1 {
        if !i.markFull {
          out := [MarkToDelete];
          fsm, marks := if i.decoupled then WaitPr else StartTcpCls2, marks + 1;
        }
      } else if fsm == WaitPr {
        if !i.decoupled {
          fsm := StartTcpCls2;
        }
      } else if !i.startFull {
        out := [StartClose];
        tcpProcessed, currentUpdate, fsm, starts := ZERO, Notify(Tcp, ZERO), SendUpdate, starts + 1;
      }
    }

    /** One call of `pPortLogic`. */
    method Call(i: Inputs) returns (out: seq<Signal>)
      modifies this
      ensures (View(), out) == Step(old(View()), i)
    {
      hide At, PortOf, WithUdp, Lowest, IdleStep, L4Step, CloseStep, UdpRequest, TcpRequest, UdpReply, TcpReply,
        FmcReply, CloseTcpStep;
      out := [];
      match fsm {
        case Reset =>
          if stabilizeCounter > 0 {
            stabilizeCounter := stabilizeCounter - 1;
          } else {
            fsm := Idle;
          }
        case Idle => LeaveIdle(i);
        case L4Reset => out := ResetLayer4(i);
        case L7Reset =>
          if i.layer4 && i.ntsReady {
            if udpProcessed != ZERO {
              fsm := StartUdpCls;
            } else if tcpProcessed != ZERO {
              fsm := StartTcpCls1;
            } else {
              fsm := Idle;
            }
          } else {
            fsm := L4Reset;
          }
        case StartUdpCls =>
          if !i.closeFull {
            out := CloseUdpPort();
          }
        case StartTcpCls1 => out := CloseTcp(i);
        case WaitPr => out := CloseTcp(i);
        case StartTcpCls2 => out := CloseTcp(i);
        case NewFmcReq =>
          if !i.openTcpFull {
            out := [OpenTcp(i.fmcPort)];
            currentRequestedPort, fsm, outstanding := i.fmcPort, NewFmcRep, outstanding + 1;
          }
        case NewUdpReq =>
          if !i.openUdpFull {
            out := RequestUdp(i);
          }
        case NewTcpReq =>
          if !i.openTcpFull {
            out := RequestTcp(i);
          }
        case NewUdpRep =>
          if i.udpFeedback != [] {
            Answer(i.udpFeedback[0]);
          }
        case NewTcpRep =>
          if i.tcpFeedback != [] {
            Answer(i.tcpFeedback[0]);
          }
        case NewFmcRep =>
          if i.tcpFeedback != [] {
            Answer(i.tcpFeedback[0]);
          }
        case SendUpdate =>
          if !i.updateFull {
            out, fsm := [currentUpdate], Idle;
          }
      }
    }
  }
}
