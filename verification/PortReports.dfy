/** What the port notifications say about the records, over every run: the last one of a kind is the record, except
    where the FSM sets a record without reporting it. */
module PortReports {
  import opened PortVectors
  import opened PortLogic
  import opened PortRuns
  import N = NalLink

  function Record(s: State, k: Kind): Vector {
    match k
    case Fmc => s.fmc
    case Udp => s.udp
    case Tcp => s.tcp
  }

  /** The value last notified for `k`, or `v`. */
  function LastNotified(out: seq<Signal>, k: Kind, v: Vector): Vector {
    if out == [] then v else LastNotified(out[1..], k, if out[0].Notify? && out[0].kind == k then out[0].value else v)
  }

  lemma {:induction false} LastNotifiedConcat(a: seq<Signal>, b: seq<Signal>, k: Kind, v: Vector)
    ensures LastNotified(a + b, k, v) == LastNotified(b, k, LastNotified(a, k, v))
  {
    if a == [] {
      assert a + b == b;
    } else {
      LastNotifiedConcat(a[1..], b, k, if a[0].Notify? && a[0].kind == k then a[0].value else v);
      assert (a + b)[1..] == a[1..] + b;
    }
  }

  lemma OneNotified(x: Signal, k: Kind, v: Vector)
    ensures LastNotified([], k, v) == v
    ensures LastNotified([x], k, v) == if x.Notify? && x.kind == k then x.value else v
  {
    assert [x][1..] == [];
  }

  /** The address of the saved word of a kind. */
  function SavedAddress(k: Kind): nat {
    match k
    case Udp => 2
    case Tcp => 3
    case Fmc => 4
  }

  /** The inputs lead out of the layer-4 reset. */
  predicate Layer4On(i: Inputs) {
    i.layer4 && i.ntsReady
  }

  /** The call sets the record of `k` without a notification, to this value: a saved word enters a zero record; nothing
      is missing, so that the record becomes the target and drops its surplus; the layer-4 reset ends while the
      notification stream is full. */
  function SetSilently(s: State, i: Inputs, k: Kind): seq<Vector> {
    if s.fsm.Idle? && i.config != [] && i.config[0].address == SavedAddress(k) && Record(s, k) == ZERO then
      [if k == Fmc then Low16(i.config[0].value) else i.config[0].value]
    else if s.fsm.NewUdpReq? && k == Udp && !i.openUdpFull && Missing(s.udp, i.udpPorts) == ZERO then [i.udpPorts]
    else if s.fsm.NewTcpReq? && k == Tcp && !i.openTcpFull && Missing(s.tcp, i.tcpPorts) == ZERO then [i.tcpPorts]
    else if s.fsm.L4Reset? && i.updateFull && Layer4On(i) then [ZERO]
    else []
  }

  /** The call notifies `k`, or leaves a notification of `k` to be sent next. */
  predicate Reports(s: State, i: Inputs, k: Kind) {
    match s.fsm
    case NewUdpRep => k == Udp && i.udpFeedback != []
    case NewTcpRep => k == Tcp && i.tcpFeedback != []
    case NewFmcRep => k == Fmc && i.tcpFeedback != []
    case StartUdpCls => k == Udp && !i.closeFull && (s.udp == ZERO || Cleared(s.udp, Lowest(s.udp)) == ZERO)
    case StartTcpCls2 => k == Tcp && !i.startFull
    case L4Reset =>
      !i.updateFull && Record(s, k) != ZERO && k == if s.fmc != ZERO then Fmc else if s.udp != ZERO then Udp else Tcp
    case _ => false
  }

  /** The value set silently since the last report, if any. */
  function Silent(s: State, inputs: seq<Inputs>, k: Kind, silent: seq<Vector>): seq<Vector>
    decreases |inputs|
  {
    if inputs == [] then silent
    else Silent(Step(s, inputs[0]).0, inputs[1..], k, SilentNow(s, inputs[0], k, silent))
  }

  function SilentNow(s: State, i: Inputs, k: Kind, silent: seq<Vector>): seq<Vector> {
    if Reports(s, i, k) then [] else if SetSilently(s, i, k) != [] then SetSilently(s, i, k) else silent
  }

  predicate Pending(s: State, k: Kind) {
    s.fsm.SendUpdate? && s.update.Notify? && s.update.kind == k
  }

  /** The value last notified, or about to be. */
  function Expected(s: State, k: Kind, v: Vector): Vector {
    if Pending(s, k) then s.update.value else v
  }

  /** The record is the value set silently since the last report, or else the reported one. While UDP ports are being
      closed one by one, the UDP record is reported only at the end. */
  ghost predicate Tells(s: State, k: Kind, v: Vector, silent: seq<Vector>) {
    && s.update.Notify? && (Pending(s, k) ==> silent == [])
    && (!s.fsm.StartUdpCls? || k != Udp ==> Record(s, k) == if silent != [] then silent[0] else Expected(s, k, v))
  }

  ghost predicate TellsAfter(s: State, i: Inputs, r: (State, seq<Signal>), k: Kind, v: Vector, silent: seq<Vector>) {
    Tells(r.0, k, LastNotified(r.1, k, v), SilentNow(s, i, k, silent))
  }

  lemma IdleTells(s: State, i: Inputs, k: Kind, v: Vector, silent: seq<Vector>)
    requires Tells(s, k, v, silent) && s.fsm.Idle?
    ensures TellsAfter(s, i, (IdleStep(s, i), []), k, v, silent)
  {
    hide Low16, Missing, Union;
  }

  lemma RequestTells(s: State, i: Inputs, k: Kind, v: Vector, silent: seq<Vector>)
    requires Tells(s, k, v, silent)
    ensures s.fsm.NewUdpReq? && !i.openUdpFull ==> TellsAfter(s, i, UdpRequest(s, i), k, v, silent)
    ensures s.fsm.NewTcpReq? && !i.openTcpFull ==> TellsAfter(s, i, TcpRequest(s, i), k, v, silent)
    ensures s.fsm.NewFmcReq? && !i.openTcpFull ==> TellsAfter(s, i, FmcRequest(s, i), k, v, silent)
  {
    hide Low16, Missing, Union, Lowest, PortOf;
    OneNotified(OpenUdp(PortOf(Lowest(Missing(s.udp, i.udpPorts)))), k, v);
    OneNotified(OpenTcp(PortOf(Lowest(Missing(s.tcp, i.tcpPorts)))), k, v);
    OneNotified(OpenTcp(i.fmcPort), k, v);
  }

  lemma ReplyTells(s: State, i: Inputs, k: Kind, v: Vector, silent: seq<Vector>)
    requires Tells(s, k, v, silent)
    ensures s.fsm.NewUdpRep? && i.udpFeedback != [] ==>
              TellsAfter(s, i, (UdpReply(s, i.udpFeedback[0]), []), k, v, silent)
    ensures s.fsm.NewTcpRep? && i.tcpFeedback != [] ==>
              TellsAfter(s, i, (TcpReply(s, i.tcpFeedback[0]), []), k, v, silent)
    ensures s.fsm.NewFmcRep? && i.tcpFeedback != [] ==>
              TellsAfter(s, i, (FmcReply(s, i.tcpFeedback[0]), []), k, v, silent)
  {
    hide Low16, Missing, Union, At, Opened;
  }

  lemma CloseTells(s: State, i: Inputs, k: Kind, v: Vector, silent: seq<Vector>)
    requires Tells(s, k, v, silent) && s.fsm.StartUdpCls? && !i.closeFull
    ensures TellsAfter(s, i, CloseStep(s), k, v, silent)
  {
    hide Low16, Missing, Union, At, Cleared, Lowest, PortOf;
    OneNotified(CloseUdp(PortOf(Lowest(s.udp))), k, v);
  }

  lemma CloseTcpTells(s: State, i: Inputs, k: Kind, v: Vector, silent: seq<Vector>)
    requires Tells(s, k, v, silent) && (s.fsm.StartTcpCls1? || s.fsm.WaitPr? || s.fsm.StartTcpCls2?)
    ensures TellsAfter(s, i, CloseTcpStep(s, i), k, v, silent)
  {
    hide Low16, Missing;
    OneNotified(MarkToDelete, k, v);
    OneNotified(StartClose, k, v);
  }

  lemma L4Tells(s: State, i: Inputs, k: Kind, v: Vector, silent: seq<Vector>)
    requires Tells(s, k, v, silent) && s.fsm.L4Reset?
    ensures TellsAfter(s, i, L4Step(s, i), k, v, silent)
  {
    hide Low16, Missing, Union;
    OneNotified(Notify(Fmc, ZERO), k, v);
    OneNotified(Notify(Udp, ZERO), k, v);
    OneNotified(Notify(Tcp, ZERO), k, v);
  }

  lemma OtherTells(s: State, i: Inputs, k: Kind, v: Vector, silent: seq<Vector>)
    requires Tells(s, k, v, silent) && (s.fsm.Reset? || s.fsm.L7Reset? || s.fsm.SendUpdate?)
    ensures TellsAfter(s, i, Step(s, i), k, v, silent)
  {
    hide Low16, Missing;
    OneNotified(s.update, k, v);
  }

  lemma WaitTells(s: State, i: Inputs, k: Kind, v: Vector, silent: seq<Vector>)
    requires Tells(s, k, v, silent) && !Reports(s, i, k) && SetSilently(s, i, k) == []
    ensures TellsAfter(s, i, (s, []), k, v, silent)
  {
  }

  /** Every call. */
  lemma CallTells(s: State, i: Inputs, k: Kind, v: Vector, silent: seq<Vector>)
    requires Tells(s, k, v, silent)
    ensures TellsAfter(s, i, Step(s, i), k, v, silent)
  {
    hide Tells, TellsAfter, IdleStep, UdpRequest, TcpRequest, FmcRequest, UdpReply, TcpReply, FmcReply, CloseStep,
      CloseTcpStep, L4Step, L7Step, Missing, Cleared, Lowest;
    match s.fsm
    case Idle => IdleTells(s, i, k, v, silent);
    case L4Reset => L4Tells(s, i, k, v, silent);
    case StartUdpCls => if i.closeFull { WaitTells(s, i, k, v, silent); } else { CloseTells(s, i, k, v, silent); }
    case NewUdpReq => if i.openUdpFull { WaitTells(s, i, k, v, silent); } else { RequestTells(s, i, k, v, silent); }
    case NewTcpReq => if i.openTcpFull { WaitTells(s, i, k, v, silent); } else { RequestTells(s, i, k, v, silent); }
    case NewFmcReq => if i.openTcpFull { WaitTells(s, i, k, v, silent); } else { RequestTells(s, i, k, v, silent); }
    case NewUdpRep => if i.udpFeedback == [] { WaitTells(s, i, k, v, silent); } else { ReplyTells(s, i, k, v, silent); }
    case NewTcpRep => if i.tcpFeedback == [] { WaitTells(s, i, k, v, silent); } else { ReplyTells(s, i, k, v, silent); }
    case NewFmcRep => if i.tcpFeedback == [] { WaitTells(s, i, k, v, silent); } else { ReplyTells(s, i, k, v, silent); }
    case Reset => OtherTells(s, i, k, v, silent);
    case L7Reset => OtherTells(s, i, k, v, silent);
    case SendUpdate => OtherTells(s, i, k, v, silent);
    case _ => CloseTcpTells(s, i, k, v, silent);
  }

  lemma {:induction false} RunTells(s: State, inputs: seq<Inputs>, k: Kind, v: Vector, silent: seq<Vector>)
    requires Tells(s, k, v, silent)
    ensures var r := Run(s, inputs); Tells(r.0, k, LastNotified(r.1, k, v), Silent(s, inputs, k, silent))
    decreases |inputs|
  {
    hide Step, Tells, SilentNow, LastNotified;
    if inputs == [] {
      NoneNotified(k, v);
    } else {
      var a := Step(s, inputs[0]);
      var w, next := LastNotified(a.1, k, v), SilentNow(s, inputs[0], k, silent);
      CallTells(s, inputs[0], k, v, silent);
      RunTells(a.0, inputs[1..], k, w, next);
      LastNotifiedConcat(a.1, Run(a.0, inputs[1..]).1, k, v);
    }
  }

  lemma NoneNotified(k: Kind, v: Vector)
    ensures LastNotified([], k, v) == v
  {
  }

  /** In every run that starts with nothing to report, a pending notification carries the record of its kind. */
  lemma UpdateTellsRecord(s: State, inputs: seq<Inputs>)
    requires !s.fsm.SendUpdate? && !s.fsm.StartUdpCls? && s.update.Notify?
    ensures var r := Run(s, inputs).0;
            r.update.Notify? && (r.fsm.SendUpdate? ==> r.update.value == Record(r, r.update.kind))
  {
    hide Run, LastNotified, Silent;
    RunTells(s, inputs, Fmc, s.fmc, []);
    RunTells(s, inputs, Udp, s.udp, []);
    RunTells(s, inputs, Tcp, s.tcp, []);
  }

  /** In every run: outside the closing of UDP ports, the record of a kind is what was last notified, or is about to be,
      if and only if no value was set silently since, or the same value was. */
  lemma NotificationsTell(s: State, inputs: seq<Inputs>, k: Kind)
    requires !s.fsm.SendUpdate? && !s.fsm.StartUdpCls? && s.update.Notify?
    requires !Run(s, inputs).0.fsm.StartUdpCls? || k != Udp
    ensures var r, silent := Run(s, inputs), Silent(s, inputs, k, []);
            && Record(r.0, k) == (if silent != [] then silent[0]
                                  else if Pending(r.0, k) then r.0.update.value
                                  else LastNotified(r.1, k, Record(s, k)))
            && (r.0.fsm.Idle? ==>
                  (Record(r.0, k) == LastNotified(r.1, k, Record(s, k))
                   <==> silent == [] || silent[0] == LastNotified(r.1, k, Record(s, k))))
  {
    hide Run, LastNotified, Silent;
    RunTells(s, inputs, k, Record(s, k), []);
  }
}
