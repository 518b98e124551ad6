/** Leaving a role, and losing the network. While layer 7 is disabled or the role decoupled, over every schedule the FSM
    closes each recorded UDP port once, has the TCP sessions marked and closed once, opens nothing, and reports both
    records as zero. Without the network it only reports the records as zero. */
module PortCloses {
  import opened PortVectors
  import opened PortLogic
  import opened PortRuns
  import opened PortReports

  /** The network stays up with the same management port, and the role is disabled or decoupled. */
  predicate RoleOff(i: Inputs, fmc: Vector) {
    i.layer4 && i.ntsReady && i.config == [] && i.fmcPort == fmc && (!i.layer7 || i.decoupled)
  }

  /** The states of the closing sequence: UDP first, then TCP. */
  ghost predicate Leaving(s: State, fmc: Vector) {
    && s.fmc == fmc && s.update.Notify?
    && match s.fsm
       case Idle => true
       case L7Reset => true
       case StartUdpCls => true
       case SendUpdate => true
       case StartTcpCls1 => s.udp == ZERO && s.tcp != ZERO
       case WaitPr => s.udp == ZERO && s.tcp != ZERO
       case StartTcpCls2 => s.udp == ZERO && s.tcp != ZERO
       case _ => false
  }

  /** The call does not wait for room in a stream or for the end of a partial reconfiguration. */
  predicate Proceeds(s: State, i: Inputs) {
    match s.fsm
    case StartUdpCls => !i.closeFull
    case StartTcpCls1 => !i.markFull
    case WaitPr => !i.decoupled
    case StartTcpCls2 => !i.startFull
    case SendUpdate => !i.updateFull
    case _ => true
  }

  function CloseLeft(udp: Vector, tcp: Vector): nat {
    (if udp != ZERO then |Ports(udp)| + 3 else 0) + (if tcp != ZERO then 6 else 0)
  }

  /** Calls that do not wait until both records are zero and reported. */
  function LeaveLeft(s: State): nat {
    match s.fsm
    case L7Reset => if CloseLeft(s.udp, s.tcp) > 0 then CloseLeft(s.udp, s.tcp) - 1 else 0
    case StartUdpCls => (if s.udp != ZERO then |Ports(s.udp)| + 1 else 2) + CloseLeft(ZERO, s.tcp)
    case StartTcpCls1 => 4
    case WaitPr => 3
    case StartTcpCls2 => 2
    case SendUpdate => 1 + CloseLeft(s.udp, s.tcp)
    case _ => CloseLeft(s.udp, s.tcp)
  }

  /** The mark and start-close signals still to come. */
  function ClosingsLeft(s: State): seq<Signal> {
    if s.fsm.WaitPr? || s.fsm.StartTcpCls2? then [StartClose]
    else if s.tcp != ZERO then [MarkToDelete, StartClose]
    else []
  }

  /** What a call does to the sequence: the closes and marks to come are used up in order, nothing is opened, and no
      record is set silently. */
  ghost predicate Leaves(s: State, i: Inputs, r: (State, seq<Signal>)) {
    && Leaving(r.0, s.fmc)
    && Closes(r.1) + Absolute(Ports(r.0.udp)) == Absolute(Ports(s.udp))
    && Closings(r.1) + ClosingsLeft(r.0) == ClosingsLeft(s) && Opens(r.1) == []
    && SetSilently(s, i, Fmc) == SetSilently(s, i, Udp) == SetSilently(s, i, Tcp) == []
    && LeaveLeft(r.0) <= LeaveLeft(s) && (Proceeds(s, i) && LeaveLeft(s) > 0 ==> LeaveLeft(r.0) < LeaveLeft(s))
  }

  lemma SignalOf(x: Signal)
    ensures Closes([]) == [] && Closings([]) == [] && Opens([]) == []
    ensures Closes([x]) == if x.CloseUdp? then [x.port] else []
    ensures Closings([x]) == if x == MarkToDelete || x == StartClose then [x] else []
    ensures Opens([x]) == if x.OpenUdp? || x.OpenTcp? then [x] else []
  {
    assert [x][1..] == [];
  }

  lemma PortsCounted(x: Vector)
    ensures x == ZERO <==> |Ports(x)| == 0
  {
    hide Ports, Cleared, Lowest;
    NoPorts();
    if x != ZERO {
      PortsNext(x);
    }
  }

  lemma UdpLeaves(s: State, i: Inputs)
    requires Leaving(s, s.fmc) && s.fsm.StartUdpCls? && !i.closeFull
    ensures Leaves(s, i, CloseStep(s))
  {
    hide At, Cleared, Union, Lowest, PortOf, Ports, Low16, Missing;
    NoPorts();
    if s.udp != ZERO {
      PortsNext(s.udp);
      PortsCounted(Cleared(s.udp, Lowest(s.udp)));
      SignalOf(CloseUdp(PortOf(Lowest(s.udp))));
      AbsoluteNext(Lowest(s.udp), Ports(Cleared(s.udp, Lowest(s.udp))));
    } else {
      SignalOf(MarkToDelete);
    }
  }

  lemma AbsoluteNext(p: Vector, ps: seq<Vector>)
    ensures Absolute([p] + ps) == [PortOf(p)] + Absolute(ps)
  {
    assert ([p] + ps)[1..] == ps;
  }

  lemma TcpLeaves(s: State, i: Inputs)
    requires Leaving(s, s.fmc) && (s.fsm.StartTcpCls1? || s.fsm.WaitPr? || s.fsm.StartTcpCls2?)
    ensures Leaves(s, i, CloseTcpStep(s, i))
  {
    hide Ports, Low16, Missing, Closes, Closings, Opens, Absolute;
    SignalOf(MarkToDelete);
    SignalOf(StartClose);
  }

  lemma OthersLeave(s: State, i: Inputs)
    requires Leaving(s, s.fmc) && RoleOff(i, s.fmc) && (s.fsm.Idle? || s.fsm.L7Reset? || s.fsm.SendUpdate?)
    ensures Leaves(s, i, Step(s, i))
  {
    hide Ports, Low16, Missing, Closes, Closings, Opens, Absolute;
    SignalOf(s.update);
  }

  lemma CallLeaves(s: State, i: Inputs)
    requires Leaving(s, s.fmc) && RoleOff(i, s.fmc)
    ensures Leaves(s, i, Step(s, i))
  {
    hide Leaves, CloseStep, CloseTcpStep, IdleStep, L7Step, Ports;
    match s.fsm
    case StartUdpCls =>
      if i.closeFull {
        StaysLeaving(s, i);
      } else {
        UdpLeaves(s, i);
      }
    case StartTcpCls1 => TcpLeaves(s, i);
    case WaitPr => TcpLeaves(s, i);
    case StartTcpCls2 => TcpLeaves(s, i);
    case _ => OthersLeave(s, i);
  }

  lemma StaysLeaving(s: State, i: Inputs)
    requires Leaving(s, s.fmc) && s.fsm.StartUdpCls? && i.closeFull
    ensures Leaves(s, i, (s, []))
  {
    hide Ports, Low16, Missing, Closes, Closings, Opens, Absolute;
    SignalOf(MarkToDelete);
  }

  /** The calls of a schedule that do not wait. */
  function Proceeded(s: State, inputs: seq<Inputs>): nat
    decreases |inputs|
  {
    if inputs == [] then 0 else (if Proceeds(s, inputs[0]) then 1 else 0) + Proceeded(Step(s, inputs[0]).0, inputs[1..])
  }

  ghost predicate LeavesAll(s: State, inputs: seq<Inputs>, r: (State, seq<Signal>)) {
    && Leaving(r.0, s.fmc)
    && Closes(r.1) + Absolute(Ports(r.0.udp)) == Absolute(Ports(s.udp))
    && Closings(r.1) + ClosingsLeft(r.0) == ClosingsLeft(s) && Opens(r.1) == []
    && (Proceeded(s, inputs) >= LeaveLeft(s) ==> LeaveLeft(r.0) == 0) && LeaveLeft(r.0) <= LeaveLeft(s)
  }

  /** Over every schedule. */
  lemma {:induction false} LeavingSweep(s: State, inputs: seq<Inputs>)
    requires Leaving(s, s.fmc) && forall i <- inputs :: RoleOff(i, s.fmc)
    ensures LeavesAll(s, inputs, Run(s, inputs))
    decreases |inputs|
  {
    hide Step, Leaving, RoleOff, Closes, Closings, Opens, Absolute, Ports, ClosingsLeft, LeaveLeft, Proceeds,
      SetSilently;
    if inputs == [] {
      SignalOf(MarkToDelete);
    } else {
      var a := Step(s, inputs[0]);
      CallLeaves(s, inputs[0]);
      LeavingIs(a.0, s.fmc);
      LeavingSweep(a.0, inputs[1..]);
      var b := Run(a.0, inputs[1..]).1;
      ClosesConcat(a.1, b);
      ClosingsConcat(a.1, b);
      OpensConcat(a.1, b);
    }
  }

  lemma LeavingIs(s: State, fmc: Vector)
    requires Leaving(s, fmc)
    ensures s.fmc == fmc
  {
  }

  lemma {:induction false} NothingSilent(s: State, inputs: seq<Inputs>, k: Kind)
    requires Leaving(s, s.fmc) && forall i <- inputs :: RoleOff(i, s.fmc)
    ensures Silent(s, inputs, k, []) == []
    decreases |inputs|
  {
    hide Step, Leaving, RoleOff, Closes, Closings, Opens, Absolute, Ports, ClosingsLeft, LeaveLeft, Proceeds,
      SetSilently, Reports;
    if inputs != [] {
      CallLeaves(s, inputs[0]);
      var r := Step(s, inputs[0]).0;
      LeavingIs(r, s.fmc);
      NothingSilent(r, inputs[1..], k);
    }
  }

  /** From idle, as soon as enough calls did not wait: both records are zero, and reported as such if they were reported
      before; each recorded UDP port was closed once, in ascending order; if TCP ports were recorded, one mark and then
      one start-close signal were sent; nothing was opened. */
  lemma RoleLeft(s: State, inputs: seq<Inputs>)
    requires s.fsm.Idle? && s.update.Notify? && forall i <- inputs :: RoleOff(i, s.fmc)
    requires Proceeded(s, inputs) >= CloseLeft(s.udp, s.tcp)
    ensures var r := Run(s, inputs);
            && r.0.fmc == s.fmc && r.0.udp == r.0.tcp == ZERO
            && LastNotified(r.1, Udp, s.udp) == LastNotified(r.1, Tcp, s.tcp) == ZERO
            && Closes(r.1) == Absolute(Ports(s.udp))
            && Closings(r.1) == (if s.tcp != ZERO then [MarkToDelete, StartClose] else []) && Opens(r.1) == []
  {
    hide Run, Closes, Closings, Opens, Absolute, Ports, Proceeded, RoleOff, LastNotified, Silent, CloseLeft;
    LeavingSweep(s, inputs);
    var r := Run(s, inputs);
    AllLeft(r.0, s.fmc);
    assert Closes(r.1) + [] == Closes(r.1) && Closings(r.1) + [] == Closings(r.1);
    NothingSilent(s, inputs, Udp);
    NothingSilent(s, inputs, Tcp);
    NotificationsTell(s, inputs, Udp);
    NotificationsTell(s, inputs, Tcp);
  }

  lemma AllLeft(s: State, fmc: Vector)
    requires Leaving(s, fmc) && LeaveLeft(s) == 0
    ensures s.udp == s.tcp == ZERO && Absolute(Ports(s.udp)) == [] && ClosingsLeft(s) == []
    ensures !s.fsm.StartUdpCls? && !s.fsm.SendUpdate?
  {
    hide Ports;
    NoPorts();
  }

  // ---- Losing the network ----

  /** Layer 4 is disabled or the network is not ready. */
  predicate NetworkOff(i: Inputs) {
    i.config == [] && (!i.layer4 || !i.ntsReady)
  }

  /** How many records are not zero. */
  function NonZero(s: State): nat {
    (if s.fmc != ZERO then 1 else 0) + (if s.udp != ZERO then 1 else 0) + (if s.tcp != ZERO then 1 else 0)
  }

  /** Only zero values are notified. */
  ghost predicate OnlyZeros(out: seq<Signal>) {
    forall x <- out :: x.Notify? && x.value == ZERO
  }

  lemma CallLosesNetwork(s: State, i: Inputs)
    requires (s.fsm.Idle? || s.fsm.L4Reset?) && s.update.Notify? && NetworkOff(i)
    ensures var r := Step(s, i);
            && r.0.fsm.L4Reset? && r.0.update.Notify? && OnlyZeros(r.1) && NonZero(r.0) <= NonZero(s)
            && (s.fsm.L4Reset? && !i.updateFull && NonZero(s) > 0 ==> NonZero(r.0) < NonZero(s))
            && SetSilently(s, i, Fmc) == SetSilently(s, i, Udp) == SetSilently(s, i, Tcp) == []
  {
    hide Low16, Union, Missing;
  }

  /** The calls in the reset that have room for a notification. */
  function Roomy(inputs: seq<Inputs>): nat {
    if inputs == [] then 0 else (if !inputs[0].updateFull then 1 else 0) + Roomy(inputs[1..])
  }

  lemma {:induction false} LosingSweep(s: State, inputs: seq<Inputs>)
    requires s.fsm.L4Reset? && s.update.Notify? && forall i <- inputs :: NetworkOff(i)
    ensures var r := Run(s, inputs);
            && r.0.fsm.L4Reset? && OnlyZeros(r.1) && NonZero(r.0) <= NonZero(s)
            && (Roomy(inputs) >= NonZero(s) ==> NonZero(r.0) == 0)
    ensures Silent(s, inputs, Fmc, []) == Silent(s, inputs, Udp, []) == Silent(s, inputs, Tcp, []) == []
    decreases |inputs|
  {
    hide Step, NetworkOff, SetSilently, Reports, NonZero;
    if inputs != [] {
      CallLosesNetwork(s, inputs[0]);
      LosingSweep(Step(s, inputs[0]).0, inputs[1..]);
    }
  }

  /** Without the network, over every schedule: nothing is requested or closed, and as soon as enough calls had room,
      all three records are zero, and reported as such if they were reported before. */
  lemma NetworkLost(s: State, first: Inputs, inputs: seq<Inputs>)
    requires s.fsm.Idle? && s.update.Notify? && NetworkOff(first) && forall i <- inputs :: NetworkOff(i)
    requires Roomy(inputs) >= NonZero(s)
    ensures var r := Run(s, [first] + inputs);
            && r.0.fsm.L4Reset? && r.0.fmc == r.0.udp == r.0.tcp == ZERO && OnlyZeros(r.1)
            && LastNotified(r.1, Fmc, s.fmc) == LastNotified(r.1, Udp, s.udp) == LastNotified(r.1, Tcp, s.tcp) == ZERO
  {
    hide Run, Roomy, NetworkOff, LastNotified, Silent;
    var t := Step(s, first).0;
    EntersReset(s, first);
    LosingSweep(t, inputs);
    NotificationsTell(t, inputs, Fmc);
    NotificationsTell(t, inputs, Udp);
    NotificationsTell(t, inputs, Tcp);
    FirstStep(s, first, inputs);
  }

  lemma EntersReset(s: State, i: Inputs)
    requires s.fsm.Idle? && NetworkOff(i)
    ensures Step(s, i) == (s.(fsm := L4Reset), [])
  {
  }

  lemma FirstStep(s: State, first: Inputs, inputs: seq<Inputs>)
    requires Step(s, first).1 == []
    ensures Run(s, [first] + inputs) == Run(Step(s, first).0, inputs)
  {
    hide Step;
    assert ([first] + inputs)[1..] == inputs;
    assert [] + Run(Step(s, first).0, inputs).1 == Run(Step(s, first).0, inputs).1;
  }
}
