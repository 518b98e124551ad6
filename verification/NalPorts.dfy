/** The way of a port word around the control link: from a notification to the status word, to the core's saved word, to
    the configuration word, and back into the port process. */
module NalPorts {
  import opened NalLink
  import opened NalStatus
  import opened NalHandover
  import V = PortVectors
  import P = PortLogic

  /** The addresses of a kind: its status word, and its configuration word. */
  function StatusWord(k: P.Kind): (a: nat)
    ensures a < WORDS
  {
    match k
    case Udp => 1
    case Tcp => 2
    case Fmc => 3
  }

  function ConfigWord(k: P.Kind): (a: nat)
    ensures a < WORDS
  {
    match k
    case Udp => 2
    case Tcp => 3
    case Fmc => 4
  }

  /** The notification of a kind as the status memory receives it. */
  function Notice(k: P.Kind, v: nat): PortNotice {
    match k
    case Udp => PortNotice(UdpPort, v)
    case Tcp => PortNotice(TcpPort, v)
    case Fmc => PortNotice(FmcPort, v)
  }

  /** The status memory stores a notification in the word of its kind, and changes no other word. */
  lemma NoticeStored(m: Memory, q: Streams, i: MemoryInput, k: P.Kind, v: nat)
    requires m.index < WORDS && !i.resetting && q.statusProc == [] && q.version1 == []
    requires i.ports != [] && i.ports[0] == Notice(k, v)
    ensures var r := MemoryStep(m, q, i);
            r.0.status[StatusWord(k)] == v && r.1 == q
            && forall j | 0 <= j < WORDS && j != StatusWord(k) :: r.0.status[j] == m.status[j]
  {
  }

  /** The core saves the status words and writes them to the configuration words of the same kinds, the rank beside
      them, and nothing else to the configuration. */
  lemma SavedWordsPublished(f: Fmc, l: Link)
    requires FmcOk(f) && f.fsm.UpdateSavedState? && f.needConfig
    ensures var r := CoreCalls(f, l, 4);
            && (forall k: P.Kind :: r.1.config[ConfigWord(k)] == f.nalStatus[StatusWord(k)])
            && r.1.config[0] == f.rank && r.1.config[1] == l.config[1]
            && (forall j | 5 <= j < WORDS :: r.1.config[j] == l.config[j])
            && r.1.status == l.status && r.1.mrt == l.mrt
  {
    var a := FmcStep(f, l, false);
    var b := FmcStep(a.0, a.1, false);
    var c := FmcStep(b.0, b.1, false);
    var d := FmcStep(c.0, c.1, false);
    FourCalls(f, l);
    hide CoreCalls;
    forall k: P.Kind
      ensures d.1.config[ConfigWord(k)] == f.nalStatus[StatusWord(k)]
    {
      match k
      case Udp =>
      case Tcp =>
      case Fmc =>
    }
  }

  lemma FourCalls(f: Fmc, l: Link)
    requires FmcOk(f)
    ensures var a := FmcStep(f, l, false);
            var b := FmcStep(a.0, a.1, false);
            var c := FmcStep(b.0, b.1, false);
            CoreCalls(f, l, 4) == FmcStep(c.0, c.1, false)
  {
    hide FmcStep;
    var a := FmcStep(f, l, false);
    var b := FmcStep(a.0, a.1, false);
    var c := FmcStep(b.0, b.1, false);
    var d := FmcStep(c.0, c.1, false);
    assert CoreCalls(d.0, d.1, 0) == d;
    assert CoreCalls(c.0, c.1, 1) == d;
    assert CoreCalls(b.0, b.1, 2) == d;
    assert CoreCalls(a.0, a.1, 3) == d;
  }

  /** The rest of a status read. */
  lemma {:induction false} ReadEnds(f: Fmc, l: Link)
    requires FmcOk(f) && f.fsm.UpdateState? && f.nalStatus[..f.requestCnt] == l.status[..f.requestCnt]
    ensures var r := CoreCalls(f, l, WORDS - f.requestCnt);
            && r.1 == l && r.0.nalStatus == l.status && r.0.version == f.version && r.0.rank == f.rank
            && (r.0.fsm.UpdateSavedState? <==> l.status[0] == f.version && l.status[13] == f.rank)
            && (l.status[0] != f.version ==> r.0.needMrt && r.0.needConfig && r.0.fsm.LinkWait?)
            && (l.status[13] != f.rank ==> r.0.needConfig && r.0.fsm.LinkWait?)
    decreases WORDS - f.requestCnt
  {
    var p, n := FmcStep(f, l, false), f.requestCnt;
    ReadOne(f.nalStatus, l.status, n);
    if n + 1 < WORDS {
      ReadEnds(p.0, p.1);
    } else {
      assert CoreCalls(p.0, p.1, 0) == p;
    }
  }

  lemma ReadOne(s: Registers, t: Registers, n: nat)
    requires n < WORDS && s[..n] == t[..n]
    ensures s[n := t[n]][..n + 1] == t[..n + 1] && (n + 1 == WORDS ==> s[n := t[n]] == t)
  {
    assert s[n := t[n]][..n + 1] == s[..n] + [t[n]] && t[..n + 1] == t[..n] + [t[n]];
    assert s[n := t[n]][..WORDS] == s[n := t[n]] && t[..WORDS] == t;
  }

  /** Sixteen calls read the whole status region of the link. The core saves the port words if and only if version and
      rank are its own; otherwise it hands over again what differs. */
  lemma StatusReadWhole(f: Fmc, l: Link)
    requires FmcOk(f) && f.fsm.UpdateState? && f.requestCnt == 0
    ensures var r := CoreCalls(f, l, 16);
            && r.1 == l && r.0.nalStatus == l.status
            && (r.0.fsm.UpdateSavedState? <==> l.status[0] == f.version && l.status[13] == f.rank)
            && (l.status[0] != f.version ==> r.0.needMrt && r.0.needConfig)
            && (l.status[13] != f.rank ==> r.0.needConfig)
  {
    hide CoreCalls;
    assert f.nalStatus[..0] == l.status[..0];
    ReadEnds(f, l);
  }

  /** A port process that has no port of the kind takes the configuration word of the kind as its record; a process that
      has one keeps it, and the other records never change. */
  lemma ConfigWordRestores(s: P.State, i: P.Inputs, k: P.Kind, w: V.Vector)
    requires s.fsm.Idle? && i.config != [] && i.config[0] == P.ConfigUpdate(ConfigWord(k), w)
    ensures var r := P.Step(s, i);
            && r.1 == [] && r.0.fsm.Idle?
            && r.0.udp == (if k.Udp? && s.udp == V.Vector(0) then w else s.udp)
            && r.0.tcp == (if k.Tcp? && s.tcp == V.Vector(0) then w else s.tcp)
            && r.0.fmc.bits == if k.Fmc? && s.fmc == V.Vector(0) then w.bits & 0xFFFF else s.fmc.bits
  {
    V.Low16Is(w);
    hide V.Union, V.Low16;
  }
}
