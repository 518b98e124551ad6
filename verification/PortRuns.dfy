/** The port FSM over runs of calls: safety for all inputs. */
module PortRuns {
  import opened PortVectors
  import opened PortLogic

  predicate AwaitsReply(f: Fsm) {
    f.NewFmcRep? || f.NewUdpRep? || f.NewTcpRep?
  }

  /** One open request is outstanding exactly while a reply is awaited; every UDP bit was confirmed or restored; a mark
      signal is followed by a start-close signal before the next one. */
  ghost predicate Inv(s: State) {
    Counted(s) && Confirmed(s)
  }

  /** Setting the record keeps it confirmed. */
  lemma RecordKept(s: State, udp: Vector, added: Vector)
    requires udp == ZERO || Within(udp, Union(s.confirmed, added))
    ensures Within(WithUdp(s, udp, added).udp, WithUdp(s, udp, added).confirmed)
  {
    hide Union, Within;
    WithinUnion(ZERO, s.confirmed, ZERO);
  }

  predicate Confirmed(s: State) {
    Within(s.udp, s.confirmed)
  }

  lemma RestoreKeeps(s: State, u: ConfigUpdate)
    requires Confirmed(s)
    ensures Confirmed(Restore(s, u))
  {
    hide Union, Within;
    WithinUnion(ZERO, s.confirmed, u.value);
    RecordKept(s, u.value, u.value);
  }

  lemma CloseKeeps(s: State)
    requires Confirmed(s)
    ensures Confirmed(CloseStep(s).0)
  {
    hide Cleared, Union, Lowest, Within, PortOf;
    if s.udp != ZERO {
      WithinCleared(s.udp, Lowest(s.udp), s.confirmed);
      RecordKept(s, Cleared(s.udp, Lowest(s.udp)), ZERO);
    }
  }

  lemma RequestKeeps(s: State, i: Inputs)
    requires Confirmed(s)
    ensures Confirmed(UdpRequest(s, i).0)
  {
    hide Missing, Union, Lowest, Within, PortOf;
    if Missing(s.udp, i.udpPorts) == ZERO {
      NothingMissing(s.udp, i.udpPorts, s.confirmed);
      UnionZero(s.confirmed);
      RecordKept(s.(fsm := Fsm.Idle), i.udpPorts, ZERO);
    }
  }

  lemma ReplyKeeps(s: State, success: bool)
    requires Confirmed(s)
    ensures Confirmed(UdpReply(s, success))
  {
    hide At, Opened, Union, Within;
    var added := if success then At(s.bitUdp) else ZERO;
    WithinUnion(s.udp, s.confirmed, added);
    OpenedIsUnion(s.udp, s.bitUdp);
    RecordKept(s, if success then Opened(s.udp, s.bitUdp) else s.udp, added);
  }

  lemma L4Keeps(s: State, i: Inputs)
    requires Confirmed(s)
    ensures Confirmed(L4Step(s, i).0)
  {
    hide Union, Within;
    WithinUnion(ZERO, s.confirmed, ZERO);
  }

  lemma IdleKeeps(s: State, i: Inputs)
    requires Confirmed(s)
    ensures Confirmed(IdleStep(s, i))
  {
    hide Within, Restore;
    if i.config != [] {
      RestoreKeeps(s, i.config[0]);
    }
  }

  /** The steps that leave the UDP record alone. */
  lemma OthersKeep(s: State, i: Inputs, success: bool)
    requires Confirmed(s)
    ensures Confirmed(TcpRequest(s, i).0) && Confirmed(TcpReply(s, success)) && Confirmed(FmcReply(s, success))
    ensures Confirmed(FmcRequest(s, i).0) && Confirmed(L7Step(s, i)) && Confirmed(CloseTcpStep(s, i).0)
  {
    hide Within, Missing, Lowest, PortOf, Opened;
  }

  lemma FsmKeeps(s: State)
    requires Confirmed(s)
    ensures Confirmed(s.(fsm := Fsm.Idle)) && (s.stabilize > 0 ==> Confirmed(s.(stabilize := s.stabilize - 1)))
  {
    hide Within;
  }

  lemma ConfirmedKept(s: State, i: Inputs)
    requires Confirmed(s)
    ensures Confirmed(Step(s, i).0)
  {
    hide Confirmed, IdleStep, CloseStep, UdpRequest, TcpRequest, UdpReply, TcpReply, FmcReply, L4Step, L7Step,
      FmcRequest, CloseTcpStep;
    FsmKeeps(s);
    OthersKeep(s, i, if i.tcpFeedback == [] then false else i.tcpFeedback[0]);
    match s.fsm
    case Idle => IdleKeeps(s, i);
    case StartUdpCls => CloseKeeps(s);
    case NewUdpReq => RequestKeeps(s, i);
    case NewUdpRep => if i.udpFeedback != [] { ReplyKeeps(s, i.udpFeedback[0]); }
    case L4Reset => L4Keeps(s, i);
    case _ =>
  }

  /** The part of the invariant about the counters. */
  ghost predicate Counted(s: State) {
    && s.outstanding == (if AwaitsReply(s.fsm) then 1 else 0)
    && s.marks == s.starts + (if s.fsm.WaitPr? || s.fsm.StartTcpCls2? then 1 else 0)
    && s.update.Notify?
  }

  lemma RestoreCounted(s: State, u: ConfigUpdate)
    ensures var t := Restore(s, u);
            t.outstanding == s.outstanding && t.marks == s.marks && t.starts == s.starts && t.update == s.update
                && t.fsm == s.fsm
  {
    hide Union, Low16;
  }

  lemma IdleCounted(s: State, i: Inputs)
    requires Counted(s) && s.fsm.Idle?
    ensures Counted(IdleStep(s, i))
  {
    hide Restore;
    if i.config != [] {
      RestoreCounted(s, i.config[0]);
    }
  }

  lemma CloseCounted(s: State)
    requires Counted(s) && s.fsm.StartUdpCls?
    ensures Counted(CloseStep(s).0)
  {
    hide Cleared, Union, Lowest, PortOf;
  }

  lemma UdpRequestCounted(s: State, i: Inputs)
    requires Counted(s) && s.fsm.NewUdpReq?
    ensures Counted(UdpRequest(s, i).0)
  {
    hide Union, Missing, Lowest, PortOf;
  }

  lemma TcpRequestCounted(s: State, i: Inputs)
    requires Counted(s) && s.fsm.NewTcpReq?
    ensures Counted(TcpRequest(s, i).0)
  {
    hide Missing, Lowest, PortOf;
  }

  lemma ReplyCounted(s: State, success: bool)
    requires Counted(s)
    ensures s.fsm.NewUdpRep? ==> Counted(UdpReply(s, success))
    ensures s.fsm.NewTcpRep? ==> Counted(TcpReply(s, success))
    ensures s.fsm.NewFmcRep? ==> Counted(FmcReply(s, success))
  {
    hide At, Union, Opened;
  }

  lemma L4Counted(s: State, i: Inputs)
    requires Counted(s) && s.fsm.L4Reset?
    ensures Counted(L4Step(s, i).0)
  {
    hide Union;
  }

  lemma CloseTcpCounted(s: State, i: Inputs)
    requires Counted(s) && (s.fsm.StartTcpCls1? || s.fsm.WaitPr? || s.fsm.StartTcpCls2?)
    ensures Counted(CloseTcpStep(s, i).0)
  {
  }

  lemma L7Counted(s: State, i: Inputs)
    requires Counted(s) && s.fsm.L7Reset?
    ensures Counted(L7Step(s, i))
  {
  }

  lemma FsmCounted(s: State, f: Fsm, stabilize: nat)
    requires Counted(s) && (s.fsm.Reset? || s.fsm.SendUpdate?) && (f.Idle? || f.Reset?)
    ensures Counted(s.(fsm := f)) && Counted(s.(fsm := f, stabilize := stabilize))
  {
  }

  lemma FmcRequestCounted(s: State, i: Inputs)
    requires Counted(s) && s.fsm.NewFmcReq?
    ensures Counted(FmcRequest(s, i).0)
  {
  }

  lemma CountersKept(s: State, i: Inputs)
    requires Counted(s)
    ensures Counted(Step(s, i).0)
  {
    hide Counted, IdleStep, CloseStep, UdpRequest, TcpRequest, UdpReply, TcpReply, FmcReply, L4Step, L7Step,
      CloseTcpStep, FmcRequest;
    match s.fsm
    case Idle => IdleCounted(s, i);
    case StartUdpCls => CloseCounted(s);
    case NewUdpReq => UdpRequestCounted(s, i);
    case NewTcpReq => TcpRequestCounted(s, i);
    case NewFmcReq => FmcRequestCounted(s, i);
    case NewUdpRep => if i.udpFeedback != [] { ReplyCounted(s, i.udpFeedback[0]); }
    case NewTcpRep => if i.tcpFeedback != [] { ReplyCounted(s, i.tcpFeedback[0]); }
    case NewFmcRep => if i.tcpFeedback != [] { ReplyCounted(s, i.tcpFeedback[0]); }
    case L4Reset => L4Counted(s, i);
    case L7Reset => L7Counted(s, i);
    case Reset =>
      FsmCounted(s, Fsm.Idle, 0);
      FsmCounted(s, Fsm.Reset, if s.stabilize > 0 then s.stabilize - 1 else 0);
    case SendUpdate => FsmCounted(s, Fsm.Idle, 0);
    case _ => CloseTcpCounted(s, i);
  }

  /** Every call keeps the invariant, for all inputs. */
  lemma InvKept(s: State, i: Inputs)
    requires Inv(s)
    ensures Inv(Step(s, i).0)
  {
    hide Step, Within;
    ConfirmedKept(s, i);
    CountersKept(s, i);
  }

  /** A sequence of calls: the final state and all signals in order. */
  function Run(s: State, inputs: seq<Inputs>): (State, seq<Signal>)
    decreases |inputs|
  {
    if inputs == [] then (s, []) else
      var a := Step(s, inputs[0]);
      var b := Run(a.0, inputs[1..]);
      (b.0, a.1 + b.1)
  }

  ghost predicate PowerUp(s: State) {
    s.fsm.Reset? && s.udp == s.confirmed == ZERO && s.outstanding == 0 && s.marks == s.starts && s.update.Notify?
  }

  /** In every run. */
  lemma {:induction false} InvAlways(s: State, inputs: seq<Inputs>)
    requires Inv(s)
    ensures Inv(Run(s, inputs).0)
    decreases |inputs|
  {
    hide Step, Inv;
    if inputs != [] {
      InvKept(s, inputs[0]);
      InvAlways(Step(s, inputs[0]).0, inputs[1..]);
    }
  }

  lemma InvFromPowerUp(s: State, inputs: seq<Inputs>)
    requires PowerUp(s)
    ensures Inv(Run(s, inputs).0)
  {
    hide Run, Within;
    WithinUnion(s.udp, s.confirmed, ZERO);
    InvAlways(s, inputs);
  }

  /** After power-up the FSM stays in the reset for as many calls as the counter says, whatever the inputs, and is idle
      after one more. */
  lemma {:induction false} StabilizesFirst(s: State, inputs: seq<Inputs>)
    requires s.fsm.Reset? && |inputs| <= s.stabilize + 1
    ensures var r := Run(s, inputs);
            r.1 == [] && r.0 == if |inputs| <= s.stabilize then s.(stabilize := s.stabilize - |inputs|)
                                else s.(stabilize := 0, fsm := Idle)
    decreases |inputs|
  {
    if inputs != [] {
      var a := Step(s, inputs[0]).0;
      if s.stabilize > 0 {
        StabilizesFirst(a, inputs[1..]);
      } else {
        assert inputs[1..] == [];
      }
    }
  }

  /** The layer-4 reset is left only with all three records zero. */
  lemma L4ResetClears(s: State, i: Inputs)
    requires s.fsm.L4Reset? && !Step(s, i).0.fsm.L4Reset?
    ensures var t := Step(s, i).0; t.fsm.Idle? && t.fmc == t.udp == t.tcp == t.confirmed == ZERO
  {
  }

  /** The counters count the signals, and a mark is sent only when every earlier mark was followed by a start-close
      signal, a start-close signal only after a mark. */
  lemma MarksAlternate(s: State, i: Inputs)
    requires Inv(s)
    ensures var r := Step(s, i);
            && r.0.marks == s.marks + (if MarkToDelete in r.1 then 1 else 0)
            && r.0.starts == s.starts + (if StartClose in r.1 then 1 else 0)
            && (MarkToDelete in r.1 ==> s.marks == s.starts && |r.1| == 1)
            && (StartClose in r.1 ==> s.marks == s.starts + 1 && |r.1| == 1)
  {
    hide Confirmed, IdleStep, CloseStep, UdpRequest, TcpRequest, UdpReply, TcpReply, FmcReply, L4Step, L7Step,
      FmcRequest, CloseTcpStep;
    match s.fsm
    case StartTcpCls1 => CloseTcpMarks(s, i);
    case WaitPr => CloseTcpMarks(s, i);
    case StartTcpCls2 => CloseTcpMarks(s, i);
    case _ => StepUncounted(s, i);
  }

  lemma CloseTcpMarks(s: State, i: Inputs)
    requires Counted(s) && (s.fsm.StartTcpCls1? || s.fsm.WaitPr? || s.fsm.StartTcpCls2?)
    ensures var r := CloseTcpStep(s, i);
            && r.0.marks == s.marks + (if MarkToDelete in r.1 then 1 else 0)
            && r.0.starts == s.starts + (if StartClose in r.1 then 1 else 0)
            && (MarkToDelete in r.1 ==> s.marks == s.starts && |r.1| == 1)
            && (StartClose in r.1 ==> s.marks == s.starts + 1 && |r.1| == 1)
  {
  }

  lemma StepUncounted(s: State, i: Inputs)
    requires Counted(s) && !s.fsm.StartTcpCls1? && !s.fsm.StartTcpCls2? && !s.fsm.WaitPr?
    ensures Uncounted(s, Step(s, i))
  {
    hide Uncounted, Counted, IdleStep, CloseStep, UdpRequest, TcpRequest, UdpReply, TcpReply, FmcReply, L4Step,
      L7Step, FmcRequest;
    var udp := if i.udpFeedback == [] then false else i.udpFeedback[0];
    var tcp := if i.tcpFeedback == [] then false else i.tcpFeedback[0];
    match s.fsm
    case Reset => PlainUncounted(s);
    case SendUpdate => PlainUncounted(s);
    case StartUdpCls =>
      PlainUncounted(s);
      OtherSignals(s, i, udp, tcp);
    case NewUdpReq =>
      PlainUncounted(s);
      OtherSignals(s, i, udp, tcp);
    case NewUdpRep =>
      PlainUncounted(s);
      OtherSignals(s, i, udp, tcp);
    case Idle => OtherSignals(s, i, udp, tcp);
    case L4Reset => OtherSignals(s, i, udp, tcp);
    case _ =>
      PlainUncounted(s);
      MoreSignals(s, i, tcp);
  }

  lemma PlainUncounted(s: State)
    requires Counted(s)
    ensures Uncounted(s, (s, [])) && Uncounted(s, (s.(fsm := Fsm.Idle), [s.update]))
            && Uncounted(s, (s.(fsm := Fsm.Idle), []))
    ensures s.stabilize > 0 ==> Uncounted(s, (s.(stabilize := s.stabilize - 1), []))
  {
  }

  /** The remaining steps send neither and count neither. */
  lemma OtherSignals(s: State, i: Inputs, udp: bool, tcp: bool)
    ensures Uncounted(s, (IdleStep(s, i), [])) && Uncounted(s, CloseStep(s)) && Uncounted(s, UdpRequest(s, i))
    ensures Uncounted(s, (UdpReply(s, udp), [])) && Uncounted(s, L4Step(s, i))
  {
    hide At, Cleared, Opened, Union, Missing, Lowest, PortOf;
  }

  lemma MoreSignals(s: State, i: Inputs, tcp: bool)
    ensures Uncounted(s, TcpRequest(s, i)) && Uncounted(s, FmcRequest(s, i)) && Uncounted(s, (L7Step(s, i), []))
    ensures Uncounted(s, (TcpReply(s, tcp), [])) && Uncounted(s, (FmcReply(s, tcp), []))
  {
    hide At, Opened, Missing, Lowest, PortOf;
  }

  ghost predicate Uncounted(s: State, r: (State, seq<Signal>)) {
    r.0.marks == s.marks && r.0.starts == s.starts && MarkToDelete !in r.1 && StartClose !in r.1
  }

  /** The mark and start-close signals among the signals. */
  function Closings(out: seq<Signal>): seq<Signal> {
    if out == [] then []
        else (if out[0] == MarkToDelete || out[0] == StartClose then [out[0]] else []) + Closings(out[1..])
  }

  lemma {:induction false} ClosingsConcat(a: seq<Signal>, b: seq<Signal>)
    ensures Closings(a + b) == Closings(a) + Closings(b)
  {
    if a == [] {
      assert a + b == b;
    } else {
      ClosingsConcat(a[1..], b);
      assert (a + b)[1..] == a[1..] + b && (a + b)[0] == a[0];
      var first := if a[0] == MarkToDelete || a[0] == StartClose then [a[0]] else [];
      assert first + (Closings(a[1..]) + Closings(b)) == (first + Closings(a[1..])) + Closings(b);
    }
  }

  /** Marks and start-closes in turn, beginning with a mark if `mark` is set. */
  predicate Alternates(out: seq<Signal>, mark: bool) {
    out == [] || (out[0] == (if mark then MarkToDelete else StartClose) && Alternates(out[1..], !mark))
  }

  lemma {:induction false} NoClosings(out: seq<Signal>)
    requires MarkToDelete !in out && StartClose !in out
    ensures Closings(out) == []
  {
    if out != [] {
      assert out[0] in out && forall x <- out[1..] :: x in out;
      NoClosings(out[1..]);
    }
  }

  /** What one call adds to the sequence. */
  lemma CallAlternates(s: State, i: Inputs)
    requires Inv(s)
    ensures var r := Step(s, i);
            var c := Closings(r.1);
            if s.marks == r.0.marks && s.starts == r.0.starts then c == []
            else c == [if s.marks == s.starts then MarkToDelete else StartClose]
                 && ((s.marks == s.starts) != (r.0.marks == r.0.starts))
  {
    MarksAlternate(s, i);
    hide Step, Inv;
    var out := Step(s, i).1;
    if MarkToDelete in out || StartClose in out {
      assert out == [out[0]] && out[1..] == [];
    } else {
      NoClosings(out);
    }
  }

  lemma {:induction false} RunAlternates(s: State, inputs: seq<Inputs>)
    requires Inv(s)
    ensures Alternates(Closings(Run(s, inputs).1), s.marks == s.starts)
    decreases |inputs|
  {
    hide Step, Inv, Closings;
    if inputs == [] {
      NoClosings([]);
    } else {
      var a := Step(s, inputs[0]);
      CallAlternates(s, inputs[0]);
      InvKept(s, inputs[0]);
      RunAlternates(a.0, inputs[1..]);
      var b := Run(a.0, inputs[1..]).1;
      ClosingsConcat(a.1, b);
      if Closings(a.1) == [] {
        assert [] + Closings(b) == Closings(b);
      } else {
        assert (Closings(a.1) + Closings(b))[1..] == Closings(b);
      }
    }
  }

  /** In every run the mark and start-close signals alternate, beginning with a mark. */
  lemma SignalsAlternate(s: State, inputs: seq<Inputs>)
    requires PowerUp(s)
    ensures Alternates(Closings(Run(s, inputs).1), true)
  {
    hide Run, Closings, Inv;
    StartsInv(s);
    RunAlternates(s, inputs);
  }

  lemma StartsInv(s: State)
    requires PowerUp(s)
    ensures Inv(s)
  {
    hide Within;
    WithinUnion(s.udp, s.confirmed, ZERO);
  }

  /** Every start-close signal comes after the end of the partial reconfiguration during which its mark was sent. `held`
      says that the last mark was sent while the role was decoupled, and that no call since has found it released. */
  ghost predicate ClosesReleased(s: State, inputs: seq<Inputs>, held: bool)
    decreases |inputs|
  {
    inputs == [] ||
    (var r := Step(s, inputs[0]);
     (StartClose in r.1 ==> !held)
     && ClosesReleased(r.0, inputs[1..], inputs[0].decoupled && (held || MarkToDelete in r.1)))
  }

  lemma HeldWaits(s: State, i: Inputs)
    requires Counted(s)
    ensures var r := Step(s, i);
            && (StartClose in r.1 ==> !s.fsm.WaitPr?)
            && (r.0.fsm.WaitPr? <==> i.decoupled && (s.fsm.WaitPr? || MarkToDelete in r.1))
  {
    hide Confirmed, IdleStep, CloseStep, UdpRequest, TcpRequest, UdpReply, TcpReply, FmcReply, L4Step, L7Step,
      FmcRequest, Counted;
    if !s.fsm.StartTcpCls1? && !s.fsm.StartTcpCls2? && !s.fsm.WaitPr? {
      StepWaits(s, i);
      StepUncounted(s, i);
    }
  }

  /** The FSM waits only after a mark. */
  lemma StepWaits(s: State, i: Inputs)
    requires !s.fsm.StartTcpCls1? && !s.fsm.WaitPr?
    ensures !Step(s, i).0.fsm.WaitPr?
  {
    hide Missing, Union, At, Opened, Cleared, Lowest, Low16, PortOf;
  }

  lemma {:induction false} ReleasedFirst(s: State, inputs: seq<Inputs>)
    requires Inv(s)
    ensures ClosesReleased(s, inputs, s.fsm.WaitPr?)
    decreases |inputs|
  {
    hide Step, Confirmed, Counted;
    if inputs != [] {
      HeldWaits(s, inputs[0]);
      InvKept(s, inputs[0]);
      ReleasedFirst(Step(s, inputs[0]).0, inputs[1..]);
    }
  }

  /** In every run. */
  lemma ReconfigurationFirst(s: State, inputs: seq<Inputs>)
    requires PowerUp(s)
    ensures ClosesReleased(s, inputs, false)
  {
    StartsInv(s);
    ReleasedFirst(s, inputs);
    hide *;
    PowerUpIs(s);
  }

  lemma PowerUpIs(s: State)
    requires PowerUp(s)
    ensures !s.fsm.WaitPr?
  {
  }

  // ---- Full streams ----

  /** The stream of a signal has room. */
  predicate HasRoomFor(i: Inputs, x: Signal) {
    match x
    case OpenUdp(_) => !i.openUdpFull
    case OpenTcp(_) => !i.openTcpFull
    case CloseUdp(_) => !i.closeFull
    case MarkToDelete => !i.markFull
    case StartClose => !i.startFull
    case Notify(_, _) => !i.updateFull
  }

  /** No call writes to a stream without room. */
  lemma FullStreamsUnwritten(s: State, i: Inputs)
    requires s.update.Notify?
    ensures forall x <- Step(s, i).1 :: HasRoomFor(i, x)
  {
    hide Missing, Union, At, Opened, Cleared, Lowest, Low16, PortOf;
  }

  // ---- Closing ----

  function Closes(out: seq<Signal>): seq<Vector> {
    if out == [] then [] else (if out[0].CloseUdp? then [out[0].port] else []) + Closes(out[1..])
  }

  function Absolute(ps: seq<Vector>): (r: seq<Vector>)
    ensures |r| == |ps|
  {
    if ps == [] then [] else [PortOf(ps[0])] + Absolute(ps[1..])
  }

  lemma CloseOne(s: State, i: Inputs)
    requires s.fsm.StartUdpCls?
    ensures var r := Step(s, i);
            && Closes(r.1) + Absolute(Ports(r.0.udp)) == Absolute(Ports(s.udp))
            && (r.0.fsm.StartUdpCls? || (r.0.fsm.SendUpdate? && r.0.udp == ZERO))
  {
    hide At, Cleared, Union, Lowest, PortOf, Ports;
    var r := Step(s, i);
    if !i.closeFull && s.udp != ZERO {
      PortsNext(s.udp);
      assert r.1[1..] == [];
    } else {
      assert r.1 == [];
    }
  }

  lemma {:induction false} ClosesConcat(a: seq<Signal>, b: seq<Signal>)
    ensures Closes(a + b) == Closes(a) + Closes(b)
  {
    if a == [] {
      assert a + b == b;
    } else {
      ClosesConcat(a[1..], b);
      assert (a + b)[1..] == a[1..] + b;
      var first := if a[0].CloseUdp? then [a[0].port] else [];
      assert first + (Closes(a[1..]) + Closes(b)) == (first + Closes(a[1..])) + Closes(b);
    }
  }

  /** The FSM has not left the closing state before the last of these calls. */
  ghost predicate Closing(s: State, inputs: seq<Inputs>)
    decreases |inputs|
  {
    s.fsm.StartUdpCls? && (inputs != [] ==> |inputs| == 1 || Closing(Step(s, inputs[0]).0, inputs[1..]))
  }

  /** Over any schedule: the closes sent so far, then the ports still recorded, are the ports recorded at the start,
      each once and in ascending order; the state is left when none is recorded. */
  lemma {:induction false} ClosingSweep(s: State, inputs: seq<Inputs>)
    requires Closing(s, inputs)
    ensures var r := Run(s, inputs);
            && Closes(r.1) + Absolute(Ports(r.0.udp)) == Absolute(Ports(s.udp))
            && (r.0.fsm.StartUdpCls? || (r.0.fsm.SendUpdate? && r.0.udp == ZERO))
    decreases |inputs|
  {
    hide Step, Ports, Absolute;
    if inputs != [] {
      var a := Step(s, inputs[0]);
      CloseOne(s, inputs[0]);
      if |inputs| == 1 {
        assert Run(a.0, []) == (a.0, []) && a.1 + [] == a.1;
      } else {
        ClosingSweep(a.0, inputs[1..]);
        ClosesConcat(a.1, Run(a.0, inputs[1..]).1);
      }
    }
  }

  // ---- Requests and replies ----

  /** The open requests among the signals. */
  function Opens(out: seq<Signal>): seq<Signal> {
    if out == [] then [] else (if out[0].OpenUdp? || out[0].OpenTcp? then [out[0]] else []) + Opens(out[1..])
  }

  lemma {:induction false} OpensConcat(a: seq<Signal>, b: seq<Signal>)
    ensures Opens(a + b) == Opens(a) + Opens(b)
  {
    if a == [] {
      assert a + b == b;
    } else {
      OpensConcat(a[1..], b);
      assert (a + b)[1..] == a[1..] + b;
      var first := if a[0].OpenUdp? || a[0].OpenTcp? then [a[0]] else [];
      assert first + (Opens(a[1..]) + Opens(b)) == (first + Opens(a[1..])) + Opens(b);
    }
  }

  /** The replies that a call reads. */
  function RepliesRead(s: State, i: Inputs): nat {
    if s.fsm.NewUdpRep? && i.udpFeedback != [] then 1
    else if (s.fsm.NewTcpRep? || s.fsm.NewFmcRep?) && i.tcpFeedback != [] then 1
    else 0
  }

  /** A call changes `outstanding` by the requests sent and the replies read; it sends a request only when none is
      outstanding. */
  ghost predicate Tallied(s: State, r: (State, seq<Signal>), replies: nat) {
    && r.0.outstanding == s.outstanding + |Opens(r.1)| - replies
    && |Opens(r.1)| <= 1 && (Opens(r.1) != [] ==> s.outstanding == 0)
  }

  lemma OpensOne(a: Signal)
    ensures Opens([]) == [] && Opens([a]) == if a.OpenUdp? || a.OpenTcp? then [a] else []
  {
    assert [a][1..] == [];
  }

  lemma RequestsTallied(s: State, i: Inputs)
    requires !AwaitsReply(s.fsm) && s.outstanding == 0
    ensures Tallied(s, UdpRequest(s, i), 0) && Tallied(s, TcpRequest(s, i), 0) && Tallied(s, FmcRequest(s, i), 0)
  {
    var du, dt := Missing(s.udp, i.udpPorts), Missing(s.tcp, i.tcpPorts);
    hide Union, Missing, Lowest, PortOf;
    OpensOne(OpenUdp(PortOf(Lowest(du))));
    OpensOne(OpenTcp(PortOf(Lowest(dt))));
    OpensOne(OpenTcp(i.fmcPort));
  }

  lemma RepliesTallied(s: State, success: bool)
    ensures Tallied(s, (UdpReply(s, success), []), 1) && Tallied(s, (TcpReply(s, success), []), 1)
    ensures Tallied(s, (FmcReply(s, success), []), 1)
  {
    hide At, Union, Opened;
  }

  lemma ClosesTallied(s: State, i: Inputs)
    ensures Tallied(s, CloseStep(s), 0) && Tallied(s, CloseTcpStep(s, i), 0)
  {
    hide Cleared, Union, Lowest, PortOf;
    OpensOne(CloseUdp(PortOf(Lowest(s.udp))));
    OpensOne(MarkToDelete);
    OpensOne(StartClose);
  }

  lemma ResetsTallied(s: State, i: Inputs)
    ensures Tallied(s, L4Step(s, i), 0) && Tallied(s, (IdleStep(s, i), []), 0) && Tallied(s, (L7Step(s, i), []), 0)
  {
    hide Union, Restore;
    OpensOne(Notify(Fmc, ZERO));
    OpensOne(Notify(Udp, ZERO));
    OpensOne(Notify(Tcp, ZERO));
    if i.config != [] {
      RestoreCounted(s, i.config[0]);
    }
  }

  lemma CallTallied(s: State, i: Inputs)
    requires Counted(s)
    ensures Tallied(s, Step(s, i), RepliesRead(s, i))
  {
    hide IdleStep, CloseStep, UdpRequest, TcpRequest, UdpReply, TcpReply, FmcReply, L4Step, L7Step, FmcRequest,
      CloseTcpStep, Opens;
    OpensOne(s.update);
    ClosesTallied(s, i);
    ResetsTallied(s, i);
    match s.fsm
    case NewUdpReq => RequestsTallied(s, i);
    case NewTcpReq => RequestsTallied(s, i);
    case NewFmcReq => RequestsTallied(s, i);
    case NewUdpRep => if i.udpFeedback != [] { RepliesTallied(s, i.udpFeedback[0]); }
    case NewTcpRep => if i.tcpFeedback != [] { RepliesTallied(s, i.tcpFeedback[0]); }
    case NewFmcRep => if i.tcpFeedback != [] { RepliesTallied(s, i.tcpFeedback[0]); }
    case _ =>
  }

  function AllRepliesRead(s: State, inputs: seq<Inputs>): nat
    decreases |inputs|
  {
    if inputs == [] then 0 else RepliesRead(s, inputs[0]) + AllRepliesRead(Step(s, inputs[0]).0, inputs[1..])
  }

  lemma {:induction false} RunTallied(s: State, inputs: seq<Inputs>)
    requires Counted(s)
    ensures var r := Run(s, inputs);
            Counted(r.0) && r.0.outstanding == s.outstanding + |Opens(r.1)| - AllRepliesRead(s, inputs)
    decreases |inputs|
  {
    hide Step, Counted, RepliesRead;
    if inputs != [] {
      var a := Step(s, inputs[0]);
      CallTallied(s, inputs[0]);
      CountersKept(s, inputs[0]);
      RunTallied(a.0, inputs[1..]);
      OpensConcat(a.1, Run(a.0, inputs[1..]).1);
    }
  }

  /** In every run: the open requests sent outnumber the replies read by one exactly while a reply is awaited, and never
      otherwise. */
  lemma RequestsAnswered(s: State, inputs: seq<Inputs>)
    requires PowerUp(s)
    ensures var r := Run(s, inputs);
            |Opens(r.1)| == AllRepliesRead(s, inputs) + if AwaitsReply(r.0.fsm) then 1 else 0
  {
    hide Run, Opens, AllRepliesRead;
    RunTallied(s, inputs);
  }
}
