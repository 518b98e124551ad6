/** The status memory, which turns notifications into status words and announces every changed word, and the agency
    that answers routing lookups. */
module NalStatus {
  import opened NalLink

  /** The nine words computed from the event counters. */
  type Derived = s: seq<nat> | |s| == 9 witness [0, 0, 0, 0, 0, 0, 0, 0, 0]

  datatype PortKind = FmcPort | UdpPort | TcpPort

  datatype PortNotice = PortNotice(kind: PortKind, value: nat)

  datatype Memory = Memory(status: Registers, old_: Registers, index: nat, derived: Derived)

  /** The inputs of one call besides the streams: whether the counters are being reset, and to what the nine words
      then change; the pending port notifications; whether an event is pending, and its effect. */
  datatype MemoryInput = MemoryInput(resetting: bool, afterReset: Derived, ports: seq<PortNotice>,
                                     event: bool, afterEvent: Derived, statusFull: bool)

  function Refreshed(s: Registers, d: Derived): Registers {
    s[8 := d[0]][10 := d[1]][9 := d[2]][12 := d[3]][11 := d[4]][14 := d[5]][15 := d[6]][4 := d[7]][5 := d[8]]
  }

  function PortAddress(k: PortKind): (a: nat)
    ensures a < WORDS
  {
    match k
    case FmcPort => STATUS_FMC_PORT_PROCESSED
    case UdpPort => STATUS_OPEN_UDP_PORTS
    case TcpPort => STATUS_OPEN_TCP_PORTS
  }

  /** Nothing but the scan branch is due. */
  predicate Quiet(i: MemoryInput, q: Streams) {
    !i.resetting && q.statusProc == [] && q.version1 == [] && i.ports == [] && !i.event
  }

  /** The scan branch: refresh the computed words, then announce the word at the scan index if it differs from
      its last announced value. */
  function Scan(m: Memory, q: Streams, full: bool): (r: (Memory, Streams))
    requires m.index < WORDS
    ensures r.0.index < WORDS
  {
    var s := Refreshed(m.status, m.derived);
    var next := if m.index + 1 >= WORDS then 0 else m.index + 1;
    if !full && m.old_[m.index] != s[m.index] then
      (Memory(s, m.old_[m.index := s[m.index]], next, m.derived),
          q.(status := q.status + [Update(m.index, s[m.index])]))
    else (Memory(s, m.old_, next, m.derived), q)
  }

  function MemoryStep(m: Memory, q: Streams, i: MemoryInput): (r: (Memory, Streams))
    requires m.index < WORDS
    ensures r.0.index < WORDS
  {
    if i.resetting then (m.(derived := i.afterReset), q)
    else if q.statusProc != [] then
      var u := q.statusProc[0];
      (if u.address == CONFIG_OWN_RANK then m.(status := m.status[STATUS_OWN_RANK := u.value]) else m,
       q.(statusProc := q.statusProc[1..]))
    else if q.version1 != [] then
      (m.(status := m.status[STATUS_MRT_VERSION := q.version1[0]]), q.(version1 := q.version1[1..]))
    else if i.ports != [] then (m.(status := m.status[PortAddress(i.ports[0].kind) := i.ports[0].value]), q)
    else if i.event then (m.(derived := i.afterEvent), q)
    else Scan(m, q, i.statusFull)
  }

  class StatusMemory {
    const status: array<nat>
    const oldStatus: array<nat>
    var statusUpdateI: nat
    var derived: Derived

    ghost predicate Valid()
      reads this
    {
      status.Length == WORDS && oldStatus.Length == WORDS && status != oldStatus && statusUpdateI < WORDS
    }

    ghost function View(): Memory
      reads this, status, oldStatus
      requires Valid()
    {
      Memory(status[..], oldStatus[..], statusUpdateI, derived)
    }

    constructor ()
      ensures Valid() && fresh(status) && fresh(oldStatus) && statusUpdateI == 0
      ensures forall i | 0 <= i < WORDS :: status[i] == oldStatus[i] == 0
    {
      status, oldStatus := new nat[WORDS](_ => 0), new nat[WORDS](_ => 0);
      statusUpdateI, derived := 0, [0, 0, 0, 0, 0, 0, 0, 0, 0];
    }

    method Refresh()
      requires Valid()
      modifies status
      ensures status[..] == Refreshed(old(status[..]), derived)
    {
      status[8] := derived[0];
      status[10] := derived[1];
      status[9] := derived[2];
      status[12] := derived[3];
      status[11] := derived[4];
      status[14] := derived[5];
      status[15] := derived[6];
      status[4] := derived[7];
      status[5] := derived[8];
    }

    method CheckDifference(q: Streams, full: bool) returns (r: Streams)
      requires Valid()
      modifies this`statusUpdateI, status, oldStatus
      ensures Valid() && (View(), r) == Scan(old(View()), q, full)
    {
      hide Refreshed;
      r := q;
      Refresh();
      if !full {
        if oldStatus[statusUpdateI] != status[statusUpdateI] {
          r := r.(status := r.status + [Update(statusUpdateI, status[statusUpdateI])]);
          oldStatus[statusUpdateI] := status[statusUpdateI];
        }
      }
      statusUpdateI := statusUpdateI + 1;
      if statusUpdateI >= WORDS {
        statusUpdateI := 0;
      }
    }

    /** One call of `pStatusMemory` after the initialisation. */
    method Step(q: Streams, i: MemoryInput) returns (r: Streams)
      requires Valid()
      modifies this, status, oldStatus
      ensures Valid() && (View(), r) == MemoryStep(old(View()), q, i)
    {
      hide Scan;
      r := q;
      if i.resetting {
        derived := i.afterReset;
      } else if q.statusProc != [] {
        var ca := q.statusProc[0];
        r := q.(statusProc := q.statusProc[1..]);
        if ca.address == CONFIG_OWN_RANK {
          status[STATUS_OWN_RANK] := ca.value;
        }
      } else if q.version1 != [] {
        status[STATUS_MRT_VERSION] := q.version1[0];
        r := q.(version1 := q.version1[1..]);
      } else if i.ports != [] {
        status[PortAddress(i.ports[0].kind)] := i.ports[0].value;
      } else if i.event {
        derived := i.afterEvent;
      } else {
        r := CheckDifference(q, i.statusFull);
      }
    }
  }

  /** The answer to a rank lookup; zero for a rank outside the table. */
  function GetIp(t: Table, rank: nat): nat {
    if rank < MAX_MRT_SIZE then t[rank] else 0
  }

  /** `nid` is the first row that holds `ip`, or the invalid value if there is none. */
  predicate IsNodeId(t: Table, ip: nat, nid: nat) {
    if nid < MAX_MRT_SIZE then t[nid] == ip && forall j | 0 <= j < nid :: t[j] != ip
    else nid == INVALID_MRT_VALUE && ip !in t
  }

  function Put(t: Table, u: Update): Table {
    if u.address < MAX_MRT_SIZE then t[u.address := u.value] else t
  }

  /** One lookup: its request stream, and all replies written so far. */
  datatype Lookup = Lookup(requests: seq<nat>, replies: seq<nat>)

  datatype Lookups = Lookups(udpTx: Lookup, tcpTx: Lookup, udpRx: Lookup, tcpRx: Lookup)

  /** Which reply streams have no room. */
  datatype LookupFull = LookupFull(udpTx: bool, tcpTx: bool, udpRx: bool, tcpRx: bool)

  /** The first row from `i` on that holds `ip`, or the invalid value. */
  function NodeFrom(t: Table, ip: nat, i: nat): nat
    requires i <= MAX_MRT_SIZE
    decreases MAX_MRT_SIZE - i
  {
    if i == MAX_MRT_SIZE then INVALID_MRT_VALUE else if t[i] == ip then i else NodeFrom(t, ip, i + 1)
  }

  lemma {:induction false} NodeFromIs(t: Table, ip: nat, i: nat)
    requires i <= MAX_MRT_SIZE && forall j | 0 <= j < i :: t[j] != ip
    ensures IsNodeId(t, ip, NodeFrom(t, ip, i))
    decreases MAX_MRT_SIZE - i
  {
    if i < MAX_MRT_SIZE && t[i] != ip {
      NodeFromIs(t, ip, i + 1);
    }
  }

  /** There is one such node id. */
  lemma NodeIdUnique(t: Table, ip: nat, nid: nat)
    requires IsNodeId(t, ip, nid)
    ensures nid == NodeFrom(t, ip, 0)
  {
    NodeFromIs(t, ip, 0);
    var n := NodeFrom(t, ip, 0);
    if nid < MAX_MRT_SIZE {
      assert t[nid] in t;
    }
    if n < MAX_MRT_SIZE {
      assert t[n] in t;
    }
  }

  /** The request is taken and the reply written. */
  function Replied(l: Lookup, v: nat): Lookup
    requires l.requests != []
  {
    Lookup(l.requests[1..], l.replies + [v])
  }

  /** The lookups after a call without a pending update. */
  function Answered(t: Table, ls: Lookups, full: LookupFull): Lookups {
    if ls.udpTx.requests != [] && !full.udpTx then
      ls.(udpTx := Replied(ls.udpTx, GetIp(t, ls.udpTx.requests[0])))
    else if ls.tcpTx.requests != [] && !full.tcpTx then
      ls.(tcpTx := Replied(ls.tcpTx, GetIp(t, ls.tcpTx.requests[0])))
    else if ls.udpRx.requests != [] && !full.udpRx then
      ls.(udpRx := Replied(ls.udpRx, NodeFrom(t, ls.udpRx.requests[0], 0)))
    else if ls.tcpRx.requests != [] && !full.tcpRx then
      ls.(tcpRx := Replied(ls.tcpRx, NodeFrom(t, ls.tcpRx.requests[0], 0)))
    else ls
  }

  class MrtAgency {
    const localMrt: array<nat>

    ghost predicate Valid() {
      localMrt.Length == MAX_MRT_SIZE
    }

    ghost function View(): Table
      reads localMrt
      requires Valid()
    {
      localMrt[..]
    }

    constructor ()
      ensures Valid() && fresh(localMrt) && forall i | 0 <= i < MAX_MRT_SIZE :: localMrt[i] == 0
    {
      localMrt := new nat[MAX_MRT_SIZE](_ => 0);
    }

    /** The search loop of the reverse lookup. */
    method FindNodeId(ip: nat) returns (rep: nat)
      requires Valid()
      ensures IsNodeId(View(), ip, rep)
    {
      rep := INVALID_MRT_VALUE;
      for i := 0 to MAX_MRT_SIZE
        invariant rep == INVALID_MRT_VALUE && forall j | 0 <= j < i :: localMrt[j] != ip
      {
        if localMrt[i] == ip {
          rep := i;
          break;
        }
      }
    }

    /** The answer to a rank lookup. */
    method FindIp(rank: nat) returns (rep: nat)
      requires Valid()
      ensures rep == GetIp(View(), rank)
    {
      rep := 0;
      if rank < MAX_MRT_SIZE {
        rep := localMrt[rank];
      }
    }

    /** One call of `pMrtAgency`: a pending update first, a lookup only when there is none. */
    method Step(q: Streams, ls: Lookups, full: LookupFull) returns (r: Streams, answered: Lookups)
      requires Valid()
      modifies localMrt
      ensures if q.mrt != [] then
                View() == Put(old(View()), q.mrt[0]) && r == q.(mrt := q.mrt[1..]) && answered == ls
              else View() == old(View()) && r == q && answered == Answered(View(), ls, full)
    {
      r, answered := q, ls;
      if q.mrt != [] {
        var mu := q.mrt[0];
        r := q.(mrt := q.mrt[1..]);
        if mu.address < MAX_MRT_SIZE {
          localMrt[mu.address] := mu.value;
        }
      } else if ls.udpTx.requests != [] && !full.udpTx {
        var rep := FindIp(ls.udpTx.requests[0]);
        answered := ls.(udpTx := Replied(ls.udpTx, rep));
      } else if ls.tcpTx.requests != [] && !full.tcpTx {
        var rep := FindIp(ls.tcpTx.requests[0]);
        answered := ls.(tcpTx := Replied(ls.tcpTx, rep));
      } else if ls.udpRx.requests != [] && !full.udpRx {
        var rep := FindNodeId(ls.udpRx.requests[0]);
        NodeIdUnique(View(), ls.udpRx.requests[0], rep);
        answered := ls.(udpRx := Replied(ls.udpRx, rep));
      } else if ls.tcpRx.requests != [] && !full.tcpRx {
        var rep := FindNodeId(ls.tcpRx.requests[0]);
        NodeIdUnique(View(), ls.tcpRx.requests[0], rep);
        answered := ls.(tcpRx := Replied(ls.tcpRx, rep));
      }
    }
  }
}
