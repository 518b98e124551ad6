/** Opening ports under steady inputs: over every schedule of delayed replies and full streams, exactly the missing
    ports are requested, and enough calls that do not wait make the records the targets. */
module PortConverges {
  import opened PortVectors
  import opened PortLogic
  import opened PortRuns

  /** The management port and the port vectors that the inputs ask for. */
  datatype Target = Target(fmc: Vector, udp: Vector, tcp: Vector)

  /** Everything stays enabled with the same targets, and a reply, when there is one, is positive. A reply may take any
      number of calls, and any stream may be full. */
  predicate Steady(i: Inputs, g: Target) {
    && i.layer4 && i.ntsReady && i.layer7 && !i.decoupled && i.config == []
    && i.fmcPort == g.fmc && i.udpPorts == g.udp && i.tcpPorts == g.tcp
    && (i.udpFeedback != [] ==> i.udpFeedback[0]) && (i.tcpFeedback != [] ==> i.tcpFeedback[0])
  }

  /** The states of the opening sequence: the management port first, then UDP, then TCP. */
  ghost predicate Opening(s: State, g: Target) {
    && (s.fsm.Idle? || s.fsm.SendUpdate? || s.fsm.NewFmcReq? || s.fsm.NewFmcRep? || s.fsm.NewUdpReq? || s.fsm.NewUdpRep?
        || s.fsm.NewTcpReq? || s.fsm.NewTcpRep?)
    && (s.fsm.NewFmcReq? || s.fsm.NewFmcRep? ==> s.fmc != g.fmc) && (s.fsm.NewFmcRep? ==> s.requested == g.fmc)
    && (s.fsm.NewUdpReq? || s.fsm.NewUdpRep? ==> s.fmc == g.fmc && s.udp != g.udp)
    && (s.fsm.NewUdpRep? ==> Missing(s.udp, g.udp) != ZERO && s.bitUdp == Lowest(Missing(s.udp, g.udp)))
    && (s.fsm.NewTcpReq? || s.fsm.NewTcpRep? ==> s.fmc == g.fmc && s.udp == g.udp && s.tcp != g.tcp)
    && (s.fsm.NewTcpRep? ==> Missing(s.tcp, g.tcp) != ZERO && s.bitTcp == Lowest(Missing(s.tcp, g.tcp)))
    && s.update.Notify?
  }

  function OpenAllUdp(ps: seq<Vector>): (r: seq<Signal>)
    ensures |r| == |ps| && forall k | 0 <= k < |ps| :: r[k] == OpenUdp(PortOf(ps[k]))
  {
    if ps == [] then [] else [OpenUdp(PortOf(ps[0]))] + OpenAllUdp(ps[1..])
  }

  function OpenAllTcp(ps: seq<Vector>): (r: seq<Signal>)
    ensures |r| == |ps| && forall k | 0 <= k < |ps| :: r[k] == OpenTcp(PortOf(ps[k]))
  {
    if ps == [] then [] else [OpenTcp(PortOf(ps[0]))] + OpenAllTcp(ps[1..])
  }

  /** The requests for the missing bits of one record, without the bit already requested. */
  function UdpToAsk(s: State, g: Target): seq<Signal> {
    OpenAllUdp(Ports(if s.fsm.NewUdpRep? then Missing(Opened(s.udp, s.bitUdp), g.udp) else Missing(s.udp, g.udp)))
  }

  function TcpToAsk(s: State, g: Target): seq<Signal> {
    OpenAllTcp(Ports(if s.fsm.NewTcpRep? then Missing(Opened(s.tcp, s.bitTcp), g.tcp) else Missing(s.tcp, g.tcp)))
  }

  function FmcToAsk(s: State, g: Target): seq<Signal> {
    if s.fmc != g.fmc && !s.fsm.NewFmcRep? then [OpenTcp(g.fmc)] else []
  }

  /** The requests still to be sent, in order. */
  function ToAsk(s: State, g: Target): seq<Signal> {
    FmcToAsk(s, g) + UdpToAsk(s, g) + TcpToAsk(s, g)
  }

  /** How many calls the missing bits and the surplus of a record take. */
  function Calls(record: Vector, target: Vector): nat {
    4 * |Ports(Missing(record, target))| + if Union(record, target) != target then 2 else 0
  }

  function CallsFromIdle(s: State, g: Target): nat {
    (if s.fmc != g.fmc then 4 else 0) + Calls(s.udp, g.udp) + Calls(s.tcp, g.tcp)
  }

  /** How many calls that do not wait are left. */
  function CallsLeft(s: State, g: Target): int {
    CallsFromIdle(s, g)
    + (if s.fsm.SendUpdate? then 1
       else if s.fsm.NewFmcReq? || s.fsm.NewUdpReq? || s.fsm.NewTcpReq? then -1
       else if s.fsm.NewFmcRep? || s.fsm.NewUdpRep? || s.fsm.NewTcpRep? then -2
       else 0)
  }

  predicate Settled(s: State, g: Target) {
    s.fsm.Idle? && s.fmc == g.fmc && s.udp == g.udp && s.tcp == g.tcp
  }

  /** The call does not wait for a reply or for room in a stream. */
  predicate Moves(s: State, i: Inputs) {
    match s.fsm
    case NewFmcReq => !i.openTcpFull
    case NewUdpReq => !i.openUdpFull
    case NewTcpReq => !i.openTcpFull
    case NewFmcRep => i.tcpFeedback != []
    case NewUdpRep => i.udpFeedback != []
    case NewTcpRep => i.tcpFeedback != []
    case SendUpdate => !i.updateFull
    case _ => true
  }

  lemma NoCalls(record: Vector, target: Vector)
    requires Missing(record, target) == ZERO
    ensures Calls(record, target) == (if record == target then 0 else 2) && Ports(Missing(record, target)) == []
  {
    hide Missing, Union, Ports;
    AllOpened(record, target);
    NoPorts();
  }

  lemma NoneLeft(target: Vector)
    ensures Missing(target, target) == ZERO && Calls(target, target) == 0 && Ports(Missing(target, target)) == []
  {
    hide Missing, Union, Ports, Calls;
    NoneMissing(target);
    NoCalls(target, target);
  }

  /** With the lowest missing bit opened. */
  lemma OneLess(record: Vector, target: Vector)
    requires Missing(record, target) != ZERO
    ensures var m := Missing(record, target);
            var n := Missing(Opened(record, Lowest(m)), target);
            && n.bits < m.bits && Ports(m) == [Lowest(m)] + Ports(n)
            && Calls(record, target) == 4 + Calls(Opened(record, Lowest(m)), target)
  {
    hide At, Bit, Cleared, Opened, Union, Missing, Lowest, Ports;
    var m := Missing(record, target);
    PortsNext(m);
    OpenedLessMissing(record, target, Lowest(m));
    OpenedKeepsUnion(record, target, Lowest(m));
  }

  /** What a call means for the sequence: it sends the next request or none, and no signal that closes anything. */
  ghost predicate Advances(s: State, r: (State, seq<Signal>), g: Target, moves: bool) {
    && Opening(r.0, g) && Opens(r.1) + ToAsk(r.0, g) == ToAsk(s, g)
    && (forall x <- r.1 :: x.OpenUdp? || x.OpenTcp? || x.Notify?)
    && CallsLeft(r.0, g) == CallsLeft(s, g) - (if moves && !Settled(s, g) then 1 else 0)
  }

  lemma IdleAdvances(s: State, i: Inputs, g: Target)
    requires Opening(s, g) && Steady(i, g) && s.fsm.Idle?
    ensures Advances(s, (IdleStep(s, i), []), g, true)
  {
    hide At, Opened, Missing, Lowest, PortOf, Calls, Ports, OpenAllUdp, OpenAllTcp, Restore;
    OpensNone(ToAsk(s, g));
  }

  lemma OpensNone(rest: seq<Signal>)
    ensures Opens([]) + rest == rest
  {
  }

  lemma WaitAdvances(s: State, g: Target)
    requires Opening(s, g)
    ensures Advances(s, (s, []), g, false)
  {
    hide ToAsk, CallsLeft;
    OpensNone(ToAsk(s, g));
  }

  lemma UpdateAdvances(s: State, g: Target)
    requires Opening(s, g) && s.fsm.SendUpdate?
    ensures Advances(s, (s.(fsm := Idle), [s.update]), g, true)
  {
    hide At, Opened, Missing, Lowest, PortOf, Calls, Ports, OpenAllUdp, OpenAllTcp;
    OpensOne(s.update);
    OpensNone(ToAsk(s, g));
  }

  lemma FmcAdvances(s: State, i: Inputs, g: Target)
    requires Opening(s, g) && Steady(i, g) && s.fsm.NewFmcReq?
    ensures Advances(s, FmcRequest(s, i), g, true)
  {
    hide At, Opened, Missing, Lowest, PortOf, Calls, Ports, OpenAllUdp, OpenAllTcp, Union, Opens;
    OpensOne(OpenTcp(g.fmc));
    assert [OpenTcp(g.fmc)] + ([] + UdpToAsk(s, g) + TcpToAsk(s, g))
           == [OpenTcp(g.fmc)] + UdpToAsk(s, g) + TcpToAsk(s, g);
  }

  lemma FmcReplyAdvances(s: State, g: Target)
    requires Opening(s, g) && s.fsm.NewFmcRep?
    ensures Advances(s, (FmcReply(s, true), []), g, true)
  {
    hide At, Opened, Missing, Lowest, PortOf, Calls, Ports, OpenAllUdp, OpenAllTcp, Union, Opens;
    OpensNone(ToAsk(s, g));
  }

  lemma OpenAllUdpNext(p: Vector, ps: seq<Vector>, rest: seq<Signal>)
    ensures OpenAllUdp([p] + ps) + rest == [OpenUdp(PortOf(p))] + (OpenAllUdp(ps) + rest)
    ensures OpenAllUdp([]) == []
  {
    assert ([p] + ps)[1..] == ps;
  }

  lemma OpenAllTcpNext(p: Vector, ps: seq<Vector>)
    ensures OpenAllTcp([p] + ps) == [OpenTcp(PortOf(p))] + OpenAllTcp(ps) && OpenAllTcp([]) == []
  {
    assert ([p] + ps)[1..] == ps;
  }

  lemma UdpRequestAdvances(s: State, i: Inputs, g: Target)
    requires Opening(s, g) && Steady(i, g) && s.fsm.NewUdpReq?
    ensures Advances(s, UdpRequest(s, i), g, true)
  {
    var m := Missing(s.udp, g.udp);
    hide At, Opened, Missing, Lowest, PortOf, Calls, Ports, OpenAllUdp, OpenAllTcp, Union;
    if m == ZERO {
      NoCalls(s.udp, g.udp);
      NoneLeft(g.udp);
      OpensNone(ToAsk(s, g));
    } else {
      var p := Lowest(m);
      var n := Missing(Opened(s.udp, p), g.udp);
      OneLess(s.udp, g.udp);
      OpenAllUdpNext(p, Ports(n), TcpToAsk(s, g));
      OpensOne(OpenUdp(PortOf(p)));
      NoFmc(OpenAllUdp(Ports(n)), TcpToAsk(s, g));
      NoFmc(OpenAllUdp(Ports(m)), TcpToAsk(s, g));
    }
  }

  lemma NoFmc(a: seq<Signal>, b: seq<Signal>)
    ensures [] + a + b == a + b
  {
    assert [] + a == a;
  }

  lemma UdpReplyAdvances(s: State, g: Target)
    requires Opening(s, g) && s.fsm.NewUdpRep?
    ensures Advances(s, (UdpReply(s, true), []), g, true)
  {
    hide At, Opened, Missing, Lowest, PortOf, Calls, Ports, OpenAllUdp, OpenAllTcp, Union;
    OneLess(s.udp, g.udp);
    OpensNone(ToAsk(s, g));
  }

  lemma TcpRequestAdvances(s: State, i: Inputs, g: Target)
    requires Opening(s, g) && Steady(i, g) && s.fsm.NewTcpReq?
    ensures Advances(s, TcpRequest(s, i), g, true)
  {
    var m := Missing(s.tcp, g.tcp);
    hide At, Opened, Missing, Lowest, PortOf, Calls, Ports, OpenAllUdp, OpenAllTcp;
    NoneLeft(g.udp);
    OpenAllUdpNext(ZERO, [], []);
    if m == ZERO {
      NoCalls(s.tcp, g.tcp);
      NoneLeft(g.tcp);
      OpensNone(ToAsk(s, g));
    } else {
      var p := Lowest(m);
      var n := Missing(Opened(s.tcp, p), g.tcp);
      OneLess(s.tcp, g.tcp);
      OpenAllTcpNext(p, Ports(n));
      OpensOne(OpenTcp(PortOf(p)));
      NoFmc([], OpenAllTcp(Ports(n)));
      NoFmc([], OpenAllTcp(Ports(m)));
    }
  }

  lemma TcpReplyAdvances(s: State, g: Target)
    requires Opening(s, g) && s.fsm.NewTcpRep?
    ensures Advances(s, (TcpReply(s, true), []), g, true)
  {
    hide At, Opened, Missing, Lowest, PortOf, Calls, Ports, OpenAllUdp, OpenAllTcp;
    OneLess(s.tcp, g.tcp);
    OpensNone(ToAsk(s, g));
  }

  /** Every call of the opening sequence, whether it waits or not. */
  lemma CallAdvances(s: State, i: Inputs, g: Target)
    requires Opening(s, g) && Steady(i, g)
    ensures Advances(s, Step(s, i), g, Moves(s, i))
  {
    hide Advances, IdleStep, UdpRequest, TcpRequest, UdpReply, TcpReply, FmcReply, FmcRequest, CallsLeft, ToAsk;
    WaitAdvances(s, g);
    match s.fsm
    case Idle => IdleAdvances(s, i, g);
    case SendUpdate => UpdateAdvances(s, g);
    case NewUdpReq => UdpRequestAdvances(s, i, g);
    case NewUdpRep => UdpReplyAdvances(s, g);
    case NewTcpReq => TcpRequestAdvances(s, i, g);
    case NewTcpRep => TcpReplyAdvances(s, g);
    case NewFmcReq => FmcAdvances(s, i, g);
    case NewFmcRep => FmcReplyAdvances(s, g);
  }

  /** The calls of a schedule that do not wait. */
  function Moved(s: State, inputs: seq<Inputs>): nat
    decreases |inputs|
  {
    if inputs == [] then 0 else (if Moves(s, inputs[0]) then 1 else 0) + Moved(Step(s, inputs[0]).0, inputs[1..])
  }

  lemma LeftMeans(s: State, g: Target)
    requires Opening(s, g)
    ensures CallsLeft(s, g) >= 0 && (CallsLeft(s, g) == 0 <==> Settled(s, g))
  {
    hide At, Opened, Missing, Lowest, Calls, Ports, Union;
    NoneLeft(g.udp);
    NoneLeft(g.tcp);
    CallsCount(s.udp, g.udp);
    CallsCount(s.tcp, g.tcp);
  }

  lemma CallsCount(record: Vector, target: Vector)
    ensures Calls(record, target) >= if record == target then 0 else if Missing(record, target) == ZERO then 2 else 4
  {
    hide At, Opened, Missing, Lowest, Ports, Union;
    if Missing(record, target) == ZERO {
      NoCalls(record, target);
    } else {
      OneLess(record, target);
    }
  }

  /** Over every schedule with steady inputs, however long replies take and whichever streams are full: the requests
      sent so far, then those still to be sent, are those of the start; nothing is closed; each call that does not
      wait brings the end closer. */
  lemma {:induction false} OpeningSweep(s: State, inputs: seq<Inputs>, g: Target)
    requires Opening(s, g) && forall i <- inputs :: Steady(i, g)
    ensures var r := Run(s, inputs);
            && Opening(r.0, g) && Opens(r.1) + ToAsk(r.0, g) == ToAsk(s, g)
            && (forall x <- r.1 :: x.OpenUdp? || x.OpenTcp? || x.Notify?)
            && CallsLeft(r.0, g) == if Moved(s, inputs) >= CallsLeft(s, g) then 0
                else CallsLeft(s, g) - Moved(s, inputs)
    decreases |inputs|
  {
    hide Step, Opening, ToAsk, CallsLeft, Moves, Settled, Steady;
    LeftMeans(s, g);
    if inputs == [] {
      OpensNone(ToAsk(s, g));
    } else {
      var a := Step(s, inputs[0]);
      CallAdvances(s, inputs[0], g);
      SettledMoves(s, inputs[0], g);
      OpeningSweep(a.0, inputs[1..], g);
      LeftMeans(a.0, g);
      var b := Run(a.0, inputs[1..]);
      OpensConcat(a.1, b.1);
      assert Opens(a.1) + (Opens(b.1) + ToAsk(b.0, g)) == (Opens(a.1) + Opens(b.1)) + ToAsk(b.0, g);
    }
  }

  lemma SettledMoves(s: State, i: Inputs, g: Target)
    ensures Settled(s, g) ==> Moves(s, i)
  {
  }

  /** From idle, as soon as enough calls did not wait: the FSM has requested the management port if it was not open,
      port 2718 + p for each missing UDP bit p, and then for each missing TCP bit, in ascending order, once each; it
      has closed nothing, and the records are the targets. */
  lemma PortsConverge(s: State, inputs: seq<Inputs>, g: Target)
    requires s.fsm.Idle? && s.update.Notify? && forall i <- inputs :: Steady(i, g)
    requires Moved(s, inputs) >= CallsFromIdle(s, g)
    ensures var r := Run(s, inputs);
            && r.0.fsm.Idle? && r.0.fmc == g.fmc && r.0.udp == g.udp && r.0.tcp == g.tcp
            && Opens(r.1) == (if s.fmc != g.fmc then [OpenTcp(g.fmc)] else [])
                             + OpenAllUdp(Ports(Missing(s.udp, g.udp))) + OpenAllTcp(Ports(Missing(s.tcp, g.tcp)))
            && (forall x <- r.1 :: x.OpenUdp? || x.OpenTcp? || x.Notify?)
  {
    hide Run, Moved, Steady, Missing, Ports, OpenAllUdp, OpenAllTcp, Opens, Calls, Opened;
    OpeningSweep(s, inputs, g);
    var r := Run(s, inputs).0;
    LeftMeans(r, g);
    NoneLeft(g.udp);
    NoneLeft(g.tcp);
    OpenAllUdpNext(ZERO, [], []);
    OpenAllTcpNext(ZERO, []);
    NoFmc(UdpToAsk(s, g), TcpToAsk(s, g));
    assert Opens(Run(s, inputs).1) + ToAsk(r, g) == Opens(Run(s, inputs).1);
  }

  // ---- The management port ----

  /** The network is up, the management port is asked for, and a TCP reply, when there is one, is positive. The role may
      be disabled or decoupled. */
  predicate Managed(i: Inputs, fmc: Vector) {
    i.layer4 && i.ntsReady && i.config == [] && i.fmcPort == fmc && (i.tcpFeedback != [] ==> i.tcpFeedback[0])
  }

  /** The management port is open, or the FSM goes straight for it. */
  ghost predicate Managing(s: State, fmc: Vector) {
    if s.fmc == fmc then !s.fsm.Reset? && !s.fsm.L4Reset? && !s.fsm.NewFmcReq? && !s.fsm.NewFmcRep?
    else s.fsm.Idle? || s.fsm.NewFmcReq? || (s.fsm.NewFmcRep? && s.requested == fmc)
  }

  /** Calls that do not wait until the management port is open. */
  function ManageLeft(s: State, fmc: Vector): nat {
    if s.fmc == fmc then 0 else if s.fsm.Idle? then 3 else if s.fsm.NewFmcReq? then 2 else 1
  }

  /** What a call does to the management port. */
  ghost predicate Manages(s: State, i: Inputs, r: State, fmc: Vector) {
    && Managing(r, fmc) && ManageLeft(r, fmc) <= ManageLeft(s, fmc)
    && (Moves(s, i) && ManageLeft(s, fmc) > 0 ==> ManageLeft(r, fmc) < ManageLeft(s, fmc))
  }

  /** The steps for the management port itself, and those that leave it alone. */
  lemma FmcManages(s: State, i: Inputs, fmc: Vector)
    requires Managing(s, fmc) && Managed(i, fmc) && (s.fsm.Idle? || s.fmc != fmc)
    ensures Manages(s, i, Step(s, i).0, fmc)
  {
    hide Missing, Union, At, Opened, Cleared, Lowest, Low16, PortOf, Restore, UdpRequest, TcpRequest, UdpReply,
      TcpReply, CloseStep, CloseTcpStep, L4Step;
  }

  lemma OpenManages(s: State, i: Inputs, fmc: Vector)
    requires Managing(s, fmc) && s.fmc == fmc
    ensures s.fsm.NewUdpReq? ==> Manages(s, i, UdpRequest(s, i).0, fmc)
    ensures s.fsm.NewTcpReq? ==> Manages(s, i, TcpRequest(s, i).0, fmc)
    ensures s.fsm.NewUdpRep? && i.udpFeedback != [] ==> Manages(s, i, UdpReply(s, i.udpFeedback[0]), fmc)
    ensures s.fsm.NewTcpRep? && i.tcpFeedback != [] ==> Manages(s, i, TcpReply(s, i.tcpFeedback[0]), fmc)
  {
    hide Missing, Union, At, Opened, Lowest, PortOf;
  }

  lemma CloseManages(s: State, i: Inputs, fmc: Vector)
    requires Managing(s, fmc) && Managed(i, fmc) && s.fmc == fmc
    ensures s.fsm.StartUdpCls? ==> Manages(s, i, CloseStep(s).0, fmc)
    ensures s.fsm.L7Reset? ==> Manages(s, i, L7Step(s, i), fmc)
    ensures s.fsm.StartTcpCls1? || s.fsm.WaitPr? || s.fsm.StartTcpCls2? ==> Manages(s, i, CloseTcpStep(s, i).0, fmc)
    ensures s.fsm.SendUpdate? ==> Manages(s, i, s.(fsm := Idle), fmc)
    ensures Manages(s, i, s, fmc)
  {
    hide Union, Cleared, Lowest, PortOf;
  }

  lemma CallManages(s: State, i: Inputs, fmc: Vector)
    requires Managing(s, fmc) && Managed(i, fmc)
    ensures Manages(s, i, Step(s, i).0, fmc)
  {
    hide Manages, UdpRequest, TcpRequest, UdpReply, TcpReply, CloseStep, CloseTcpStep, L4Step, L7Step, IdleStep,
      FmcRequest, FmcReply;
    if s.fsm.Idle? || s.fmc != fmc {
      FmcManages(s, i, fmc);
    } else {
      OpenManages(s, i, fmc);
      CloseManages(s, i, fmc);
    }
  }

  /** Whether or not the role is enabled, the management port comes first: from idle it is open after three calls that
      do not wait, and it stays open. */
  lemma {:induction false} ManagementFirst(s: State, inputs: seq<Inputs>, fmc: Vector)
    requires Managing(s, fmc) && forall i <- inputs :: Managed(i, fmc)
    ensures var r := Run(s, inputs).0;
            Managing(r, fmc) && (Moved(s, inputs) >= ManageLeft(s, fmc) ==> r.fmc == fmc)
    decreases |inputs|
  {
    hide Step, Managing, Managed, Moves;
    if inputs != [] {
      CallManages(s, inputs[0], fmc);
      ManagementFirst(Step(s, inputs[0]).0, inputs[1..], fmc);
    }
  }

  // ---- Ports that are no longer asked for ----

  /** The bits to close: in the record and not in the target. */
  function Surplus(record: Vector, target: Vector): Vector {
    Missing(target, record)
  }

  lemma SurplusIs(record: Vector, target: Vector)
    ensures Surplus(record, target) == ZERO <==> Union(record, target) == target
  {
    hide *;
    SurplusBits(record.bits, target.bits);
    Wraps(record, target);
  }

  lemma Wraps(record: Vector, target: Vector)
    ensures Surplus(record, target) == Vector(record.bits & !target.bits) && ZERO == Vector(0)
    ensures Union(record, target) == Vector(record.bits | target.bits)
  {
  }

  lemma SurplusBits(x: bv32, t: bv32)
    ensures x & !t == 0 <==> x | t == t
  {
  }

  lemma NoClose(out: seq<Signal>)
    requires forall x <- out :: x.OpenUdp? || x.OpenTcp? || x.Notify?
    ensures Closes(out) == []
  {
    if out != [] {
      assert out[0] in out && forall x <- out[1..] :: x in out;
      NoClose(out[1..]);
    }
  }

  lemma NoSurplus(x: Vector)
    ensures Absolute(Ports(x)) == [] <==> x == ZERO
  {
    hide Ports, Lowest, Cleared, PortOf;
    NoPorts();
    if x != ZERO {
      PortsNext(x);
    }
  }

  /** When the records have become the targets, the ports closed are those of the UDP surplus if and only if there was
      no surplus: the record drops it without a close request. */
  lemma SurplusDropped(s: State, inputs: seq<Inputs>, g: Target)
    requires s.fsm.Idle? && s.update.Notify? && forall i <- inputs :: Steady(i, g)
    requires Moved(s, inputs) >= CallsFromIdle(s, g)
    ensures var r := Run(s, inputs);
            && r.0.udp == g.udp && Closes(r.1) == []
            && (Closes(r.1) == Absolute(Ports(Surplus(s.udp, g.udp))) <==> Union(s.udp, g.udp) == g.udp)
  {
    hide Run, Moved, Steady, Ports, Calls, CallsFromIdle, Surplus, Union, Closes, Absolute;
    PortsConverge(s, inputs, g);
    NoClose(Run(s, inputs).1);
    NoSurplus(Surplus(s.udp, g.udp));
    SurplusIs(s.udp, g.udp);
  }
}
