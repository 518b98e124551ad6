/** Refused port requests: the records stay as they are, and the same port is requested again and again. */
module PortRefused {
  import opened PortVectors
  import opened PortLogic
  import opened PortRuns
  import opened PortConverges
  import opened PortReports

  /** A negative reply leaves the three records alone and is reported with the unchanged record. */
  lemma RefusedKeepsRecords(s: State, i: Inputs, k: Kind)
    requires s.fsm == (match k case Fmc => NewFmcRep case Udp => NewUdpRep case Tcp => NewTcpRep)
    requires if k == Udp then i.udpFeedback != [] && !i.udpFeedback[0] else i.tcpFeedback != [] && !i.tcpFeedback[0]
    ensures var r := Step(s, i);
            && r.1 == [] && r.0.fsm.SendUpdate? && r.0.update == Notify(k, Record(s, k))
            && r.0.fmc == s.fmc && r.0.udp == s.udp && r.0.tcp == s.tcp
  {
    hide Union, At, Opened;
  }

  /** Everything stays enabled with the same targets, and every reply is negative. */
  predicate Refusing(i: Inputs, g: Target) {
    && i.layer4 && i.ntsReady && i.layer7 && !i.decoupled && i.config == []
    && i.fmcPort == g.fmc && i.udpPorts == g.udp && i.tcpPorts == g.tcp
    && (i.udpFeedback != [] ==> !i.udpFeedback[0]) && (i.tcpFeedback != [] ==> !i.tcpFeedback[0])
  }

  /** The record that has to be opened first. */
  function FirstKind(s: State, g: Target): Kind {
    if s.fmc != g.fmc then Fmc else if s.udp != g.udp then Udp else Tcp
  }

  /** The request for the first missing port. */
  function FirstRequest(s: State, g: Target): Signal {
    match FirstKind(s, g)
    case Fmc => OpenTcp(g.fmc)
    case Udp => OpenUdp(PortOf(Lowest(Missing(s.udp, g.udp))))
    case Tcp => OpenTcp(PortOf(Lowest(Missing(s.tcp, g.tcp))))
  }

  /** The FSM asks for a port of the first kind, or is about to. */
  ghost predicate Asking(s: State, g: Target) {
    && s.update.Notify?
    && match FirstKind(s, g)
       case Fmc => s.fsm.Idle? || s.fsm.SendUpdate? || s.fsm.NewFmcReq? || s.fsm.NewFmcRep?
       case Udp =>
         Missing(s.udp, g.udp) != ZERO && (s.fsm.Idle? || s.fsm.SendUpdate? || s.fsm.NewUdpReq? || s.fsm.NewUdpRep?)
       case Tcp =>
         Missing(s.tcp, g.tcp) != ZERO && (s.fsm.Idle? || s.fsm.SendUpdate? || s.fsm.NewTcpReq? || s.fsm.NewTcpRep?)
  }

  ghost predicate SameRecords(s: State, t: State) {
    s.fmc == t.fmc && s.udp == t.udp && s.tcp == t.tcp
  }

  /** Only the first missing port is requested, and nothing is closed. */
  ghost predicate OnlyAsks(out: seq<Signal>, x: Signal) {
    forall y <- out :: y.Notify? || y == x
  }

  lemma DiffersWhenMissing(record: Vector, target: Vector)
    ensures Missing(record, target) != ZERO ==> record != target
  {
    hide Missing;
    NoneMissing(target);
  }

  ghost predicate Asks(s: State, r: (State, seq<Signal>), g: Target) {
    Asking(r.0, g) && SameRecords(r.0, s) && OnlyAsks(r.1, FirstRequest(s, g))
  }

  lemma IdleAsks(s: State, i: Inputs, g: Target)
    requires Asking(s, g) && Refusing(i, g) && s.fsm.Idle?
    ensures Asks(s, (IdleStep(s, i), []), g)
  {
    hide Missing, Lowest, PortOf, Restore;
    DiffersWhenMissing(s.udp, g.udp);
    DiffersWhenMissing(s.tcp, g.tcp);
  }

  lemma RequestAsks(s: State, i: Inputs, g: Target)
    requires Asking(s, g) && Refusing(i, g)
    ensures s.fsm.NewFmcReq? ==> Asks(s, FmcRequest(s, i), g)
    ensures s.fsm.NewUdpReq? ==> Asks(s, UdpRequest(s, i), g)
    ensures s.fsm.NewTcpReq? ==> Asks(s, TcpRequest(s, i), g)
  {
    hide Missing, Lowest, PortOf, Union;
    DiffersWhenMissing(s.udp, g.udp);
    DiffersWhenMissing(s.tcp, g.tcp);
  }

  lemma ReplyAsks(s: State, g: Target)
    requires Asking(s, g)
    ensures s.fsm.NewFmcRep? ==> Asks(s, (FmcReply(s, false), []), g)
    ensures s.fsm.NewUdpRep? ==> Asks(s, (UdpReply(s, false), []), g)
    ensures s.fsm.NewTcpRep? ==> Asks(s, (TcpReply(s, false), []), g)
    ensures s.fsm.SendUpdate? ==> Asks(s, (s.(fsm := Idle), [s.update]), g)
    ensures Asks(s, (s, []), g)
  {
    hide Missing, Lowest, PortOf, Union;
  }

  lemma CallAsks(s: State, i: Inputs, g: Target)
    requires Asking(s, g) && Refusing(i, g)
    ensures Asks(s, Step(s, i), g)
  {
    ReplyAsks(s, g);
    RequestAsks(s, i, g);
    if s.fsm.Idle? {
      IdleAsks(s, i, g);
    }
    AskingStates(s, g);
    hide Asking, Asks, IdleStep, FmcRequest, UdpRequest, TcpRequest, FmcReply, UdpReply, TcpReply, L4Step, L7Step,
      CloseStep, CloseTcpStep;
  }

  lemma AskingStates(s: State, g: Target)
    requires Asking(s, g)
    ensures s.fsm.Idle? || s.fsm.SendUpdate? || s.fsm.NewFmcReq? || s.fsm.NewFmcRep? || s.fsm.NewUdpReq?
            || s.fsm.NewUdpRep? || s.fsm.NewTcpReq? || s.fsm.NewTcpRep?
  {
    hide Missing, FirstKind;
  }

  /** Over every schedule of refusals, however long replies take and whichever streams are full: the records never
      change, and every request is the one for the first missing port. */
  lemma {:induction false} RefusedRetries(s: State, inputs: seq<Inputs>, g: Target)
    requires Asking(s, g) && forall i <- inputs :: Refusing(i, g)
    ensures var r := Run(s, inputs);
            Asking(r.0, g) && SameRecords(r.0, s) && OnlyAsks(r.1, FirstRequest(s, g))
    decreases |inputs|
  {
    hide Step, Asking, Refusing, Missing, Lowest, PortOf;
    if inputs != [] {
      CallAsks(s, inputs[0], g);
      RefusedRetries(Step(s, inputs[0]).0, inputs[1..], g);
    }
  }
}
