/** The joint system of the control-link processes, in every interleaving of their calls: handing over the routing
    table, answering lookups from it, and replicating the status words. */
module NalHandover {
  import opened NalLink
  import opened NalStatus

  /** `announced` is a history: the rows that the AXI process has announced to the agency. */
  datatype Sys = Sys(f: Fmc, l: Link, a: A4l, m: Memory, q: Streams, agency: Table, announced: set<nat>,
                     lookups: Lookups)

  /** The four processes that look addresses up. */
  datatype Asker = AskUdpTx | AskTcpTx | AskUdpRx | AskTcpRx

  function LookupOf(ls: Lookups, k: Asker): Lookup {
    match k
    case AskUdpTx => ls.udpTx
    case AskTcpTx => ls.tcpTx
    case AskUdpRx => ls.udpRx
    case AskTcpRx => ls.tcpRx
  }

  function Asked(l: Lookup, v: nat): Lookup {
    l.(requests := l.requests + [v])
  }

  /** A request joins its stream. */
  function WithAsked(ls: Lookups, k: Asker, v: nat): Lookups {
    match k
    case AskUdpTx => ls.(udpTx := Asked(ls.udpTx, v))
    case AskTcpTx => ls.(tcpTx := Asked(ls.tcpTx, v))
    case AskUdpRx => ls.(udpRx := Asked(ls.udpRx, v))
    case AskTcpRx => ls.(tcpRx := Asked(ls.tcpRx, v))
  }

  /** One call of a process, a change of the core's tables, or a read of a stream by a process outside the model. */
  datatype Action =
    | FmcCall(elapsed: bool)
    | A4lCall(full: Full)
    | MemoryCall(i: MemoryInput)
    | AgencyCall(lookupFull: LookupFull)
    | Ask(asker: Asker, value: nat)
    | ChangeTable(mrt: Table, maxNode: nat)
    | ChangeRank(rank: nat)
    | Layer4Off
    | OthersRead(portLogic: seq<Update>, udpRx: seq<Update>, tcpRx: seq<Update>, version0: seq<nat>)

  ghost predicate SysOk(s: Sys) {
    FmcOk(s.f) && A4lOk(s.a) && StatusAddresses(s.q.status) && s.m.index < WORDS
  }

  function Next(s: Sys, x: Action): (r: Sys)
    requires SysOk(s) && (x.ChangeTable? ==> TableOk(s, x))
    ensures SysOk(r)
  {
    match x
    case FmcCall(elapsed) => var p := FmcStep(s.f, s.l, elapsed); s.(f := p.0, l := p.1)
    case A4lCall(full) =>
      var p := A4lStep(s.a, s.l, s.q, full);
      s.(a := p.0, l := p.1, q := p.2, announced := NowAnnounced(s.a, s.l, s.announced))
    case MemoryCall(i) =>
      ScanAddresses(s.m, s.q, i);
      var p := MemoryStep(s.m, s.q, i);
      s.(m := p.0, q := p.1)
    case AgencyCall(full) =>
      if s.q.mrt == [] then s.(lookups := Answered(s.agency, s.lookups, full))
      else s.(agency := Put(s.agency, s.q.mrt[0]), q := s.q.(mrt := s.q.mrt[1..]))
    case Ask(k, v) => s.(lookups := WithAsked(s.lookups, k, v))
    case ChangeTable(mrt, maxNode) =>
      s.(f := s.f.(mrt := mrt, maxNode := maxNode, version := NextVersion(s.f.version), needMrt := true))
    case ChangeRank(rank) => s.(f := s.f.(rank := rank, needConfig := true))
    case Layer4Off => s.(f := s.f.(savedUdp := 0, savedTcp := 0, savedFmc := 0, needConfig := false))
    case OthersRead(p, u, t, v) => s.(q := s.q.(portLogic := p, udpRx := u, tcpRx := t, version0 := v))
  }

  lemma ScanAddresses(m: Memory, q: Streams, i: MemoryInput)
    requires m.index < WORDS && StatusAddresses(q.status)
    ensures StatusAddresses(MemoryStep(m, q, i).1.status)
  {
  }

  /** A row that differs from the local one is announced when it is copied. */
  function NowAnnounced(a: A4l, l: Link, announced: set<nat>): set<nat>
    requires A4lOk(a)
  {
    if a.fsm.CopyMrt? && l.mrt[a.index] != a.mrt[a.index] then announced + {a.index} else announced
  }

  /** A new table does not change or cut off the rows already copied by a running `LINKFSM_UPDATE_MRT`. */
  ghost predicate TableOk(s: Sys, x: Action)
    requires x.ChangeTable?
  {
    && x.maxNode < MAX_MRT_SIZE
    && (s.f.fsm.UpdateMrt? ==> s.f.copyIndex <= x.maxNode && x.mrt[..s.f.copyIndex] == s.f.mrt[..s.f.copyIndex])
  }

  /** The places from which the version `v` can still come back to the core as acknowledged. */
  ghost predicate InPipe(s: Sys, v: nat) {
    || s.a.processed == v || v in s.q.version1 || s.m.status[STATUS_MRT_VERSION] == v
    || s.m.old_[STATUS_MRT_VERSION] == v
    || Update(STATUS_MRT_VERSION, v) in s.q.status || s.a.status[STATUS_MRT_VERSION] == v
    || s.l.status[STATUS_MRT_VERSION] == v || s.f.nalStatus[STATUS_MRT_VERSION] == v
  }

  /** The places from which the version `v` can still be acknowledged. */
  ghost predicate InConfig(s: Sys, v: nat) {
    || s.l.config[CONFIG_MRT_VERSION] == v || s.a.config[CONFIG_MRT_VERSION] == v
    || (s.a.fsm.CopyConfig2? && s.a.index == CONFIG_MRT_VERSION && s.a.newWord == v)
  }

  /** A table changes together with a version that is nowhere on its way. */
  ghost predicate Allowed(s: Sys, x: Action) {
    x.ChangeTable? ==>
      && TableOk(s, x)
      && !InPipe(s, NextVersion(s.f.version)) && !InConfig(s, NextVersion(s.f.version))
  }

  /** Rows 0 to `max_discovered_node_id`, below `n`, are the core's. */
  ghost predicate RowsAgree(t: Table, f: Fmc, n: nat) {
    forall r | 0 <= r <= f.maxNode && r < n && r < MAX_MRT_SIZE :: t[r] == f.mrt[r]
  }

  /** The hand-over invariant. */
  ghost predicate Handover(s: Sys) {
    var v := s.f.version;
    && (s.f.fsm.UpdateMrt? ==> RowsAgree(s.l.mrt, s.f, s.f.copyIndex))
    && (v >= 1 && (InConfig(s, v) || InPipe(s, v)) ==> RowsAgree(s.l.mrt, s.f, MAX_MRT_SIZE))
    && (v >= 1 && InPipe(s, v) ==> RowsAgree(s.a.mrt, s.f, MAX_MRT_SIZE))
    && (v >= 1 && s.a.config[CONFIG_MRT_VERSION] == v && s.a.fsm.CopyMrt? ==> RowsAgree(s.a.mrt, s.f, s.a.index))
    && (v >= 1 && s.a.config[CONFIG_MRT_VERSION] == v && (s.a.fsm.CopyStatus? || s.a.fsm.CopyFinish?) ==>
          RowsAgree(s.a.mrt, s.f, MAX_MRT_SIZE))
  }

  /** The core writes one row, or the version after the last row, or reads back one status word. */
  lemma FmcKeepsHandover(s: Sys, elapsed: bool)
    requires SysOk(s) && Handover(s)
    ensures Handover(Next(s, FmcCall(elapsed)))
  {
    hide InPipe, InConfig;
    FmcPipe(s, elapsed);
    if s.f.fsm.UpdateMrt? {
      PublishKeepsHandover(s, elapsed);
    }
  }

  lemma PublishKeepsHandover(s: Sys, elapsed: bool)
    requires SysOk(s) && Handover(s) && s.f.fsm.UpdateMrt?
    ensures Handover(Next(s, FmcCall(elapsed)))
  {
    hide InPipe;
    FmcPipe(s, elapsed);
    var r := Next(s, FmcCall(elapsed));
    assert RowsAgree(r.l.mrt, s.f, r.f.copyIndex);
  }

  lemma FmcPipe(s: Sys, elapsed: bool)
    requires SysOk(s)
    ensures InPipe(Next(s, FmcCall(elapsed)), s.f.version) ==> InPipe(s, s.f.version)
    ensures !s.f.fsm.UpdateMrt? ==> (InConfig(Next(s, FmcCall(elapsed)), s.f.version) <==> InConfig(s, s.f.version))
  {
  }

  /** The main switch alone. */
  function MainNext(s: Sys): (r: Sys)
    requires SysOk(s)
    ensures SysOk(r)
  {
    var p := MainStep(s.a, s.l, s.q);
    s.(a := p.0, l := p.1, q := p.2, announced := NowAnnounced(s.a, s.l, s.announced))
  }

  lemma MainPipe(s: Sys, v: nat)
    requires SysOk(s)
    ensures InPipe(MainNext(s), v) ==> InPipe(s, v) || (s.a.fsm.CopyFinish? && s.a.config[CONFIG_MRT_VERSION] == v)
    ensures InConfig(MainNext(s), v) ==> InConfig(s, v)
  {
    if s.a.fsm.StatusUpdate? && s.q.status != [] {
      var u := s.q.status[0];
      assert u == Update(u.address, u.value) && u in s.q.status;
    }
  }

  /** Copying row `index` when the core's version is among the acknowledgeable ones copies the core's row. */
  lemma MainKeepsHandover(s: Sys)
    requires SysOk(s) && Handover(s)
    ensures Handover(MainNext(s))
  {
    hide InPipe;
    MainPipe(s, s.f.version);
    if s.a.fsm.CopyMrt? {
      RowKeepsHandover(s);
    } else if s.a.fsm.CopyConfig? || s.a.fsm.CopyConfig2? {
      hide InConfig;
      assert MainNext(s).a.fsm.CopyMrt? ==> MainNext(s).a.index == 0;
    }
  }

  lemma RowKeepsHandover(s: Sys)
    requires SysOk(s) && Handover(s) && s.a.fsm.CopyMrt?
    ensures Handover(MainNext(s))
  {
    hide InPipe;
    MainPipe(s, s.f.version);
    var r := MainNext(s);
    assert r.a.mrt[s.a.index] == s.l.mrt[s.a.index];
  }

  lemma A4lKeepsHandover(s: Sys, full: Full)
    requires SysOk(s) && Handover(s)
    ensures Handover(Next(s, A4lCall(full)))
  {
    hide InPipe, MainStep, BroadcastStep, VersionStep;
    MainKeepsHandover(s);
    SubsAreInert(MainNext(s), full, s.f.version);
  }

  /** The broadcasts only move the processed version into the streams. */
  lemma SubsAreInert(s: Sys, full: Full, v: nat)
    requires SysOk(s)
    ensures var p := SubSteps(s.a, s.q, full);
            var r := s.(a := p.0, q := p.1);
            && r.a.config == s.a.config && r.a.mrt == s.a.mrt && r.a.newWord == s.a.newWord && r.q.mrt == s.q.mrt
            && r.a.status == s.a.status && r.a.processed == s.a.processed
            && (InPipe(r, v) ==> InPipe(s, v))
  {
    BroadcastIsInert(s.a, s.q, full);
    hide BroadcastStep;
    var b := BroadcastStep(s.a, s.q, full);
    VersionIsInert(b.0, b.1, full);
    hide VersionStep;
  }

  lemma BroadcastIsInert(a: A4l, q: Streams, full: Full)
    ensures var p := BroadcastStep(a, q, full);
            && p.0 == a.(cb := p.0.cb) && p.1.mrt == q.mrt && p.1.version1 == q.version1
  {
  }

  lemma VersionIsInert(a: A4l, q: Streams, full: Full)
    ensures var p := VersionStep(a, q, full);
            && p.0 == a.(mb := p.0.mb) && p.1.mrt == q.mrt
            && (p.1.version1 == q.version1 || p.1.version1 == q.version1 + [a.processed])
  {
  }

  lemma MemoryKeepsHandover(s: Sys, i: MemoryInput)
    requires SysOk(s) && Handover(s)
    ensures Handover(Next(s, MemoryCall(i)))
  {
  }

  /** A fresh version makes all obligations vacuous. */
  lemma ChangeKeepsHandover(s: Sys, x: Action)
    requires SysOk(s) && Handover(s) && x.ChangeTable? && Allowed(s, x)
    ensures Handover(Next(s, x))
  {
    var r := Next(s, x);
    assert InPipe(r, r.f.version) == InPipe(s, r.f.version) && InConfig(r, r.f.version) == InConfig(s, r.f.version);
    if s.f.fsm.UpdateMrt? {
      forall k | 0 <= k < s.f.copyIndex
        ensures s.l.mrt[k] == x.mrt[k]
      {
        assert x.mrt[k] == x.mrt[..s.f.copyIndex][k] == s.f.mrt[k];
      }
    }
  }

  // ---- The agency's table ----

  function PutAll(t: Table, q: seq<Update>): Table {
    if q == [] then t else Put(PutAll(t, q[..|q| - 1]), q[|q| - 1])
  }

  lemma {:induction false} PutFirst(t: Table, q: seq<Update>)
    requires q != []
    ensures PutAll(Put(t, q[0]), q[1..]) == PutAll(t, q)
  {
    hide Put;
    if |q| > 1 {
      PutFirst(t, q[..|q| - 1]);
      assert q[..|q| - 1][1..] == q[1..][..|q| - 2];
    }
  }

  /** The queued updates bring the announced rows of the agency's table to the AXI process's table; a row never
      announced still holds its marker there, and zero here. */
  ghost predicate AgencyFollows(s: Sys) {
    var t := PutAll(s.agency, s.q.mrt);
    forall r | 0 <= r < MAX_MRT_SIZE ::
      if r in s.announced then t[r] == s.a.mrt[r] else s.a.mrt[r] == MRT_MARKER && t[r] == 0
  }

  lemma MainKeepsAgency(s: Sys)
    requires SysOk(s) && AgencyFollows(s)
    ensures AgencyFollows(MainNext(s))
  {
    hide PutAll;
    if s.a.fsm.CopyMrt? && s.l.mrt[s.a.index] != s.a.mrt[s.a.index] {
      var u := Update(s.a.index, s.l.mrt[s.a.index]);
      PutTwice(s.agency, s.q.mrt, u);
    }
  }

  lemma PutTwice(t: Table, q: seq<Update>, u: Update)
    ensures PutAll(t, q + [u] + [u]) == Put(PutAll(t, q), u)
  {
    assert (q + [u] + [u])[..|q| + 1] == q + [u] && (q + [u])[..|q|] == q;
  }

  // ---- Status replication ----

  function PutStatus(t: Registers, q: seq<Update>): Registers
    requires StatusAddresses(q)
  {
    if q == [] then t else PutStatus(t, q[..|q| - 1])[q[|q| - 1].address := q[|q| - 1].value]
  }

  lemma {:induction false} PutStatusFirst(t: Registers, q: seq<Update>)
    requires q != [] && StatusAddresses(q)
    ensures PutStatus(t[q[0].address := q[0].value], q[1..]) == PutStatus(t, q)
  {
    if |q| > 1 {
      PutStatusFirst(t, q[..|q| - 1]);
      assert q[..|q| - 1][1..] == q[1..][..|q| - 2];
    }
  }

  /** The queued status updates bring the AXI process's status to the last announced one; the copied part of the
      link's status region is the AXI process's. */
  ghost predicate StatusFollows(s: Sys) {
    && StatusAddresses(s.q.status) && PutStatus(s.a.status, s.q.status) == s.m.old_
    && (s.a.fsm.CopyStatus? ==> s.a.index <= WORDS && s.l.status[..s.a.index] == s.a.status[..s.a.index])
    && (s.a.fsm.CopyFinish? || s.a.fsm.WaitForSubFsms? ==> s.l.status == s.a.status)
  }

  lemma MainKeepsStatus(s: Sys)
    requires SysOk(s) && StatusFollows(s)
    ensures StatusFollows(MainNext(s))
  {
    hide PutStatus;
    if s.a.fsm.StatusUpdate? && s.q.status != [] {
      PutStatusFirst(s.a.status, s.q.status);
    } else if s.a.fsm.CopyStatus? {
      CopyPrefix(s.l.status, s.a.status, s.a.index);
    }
  }

  lemma CopyPrefix(l: Registers, a: Registers, i: nat)
    requires i < WORDS && l[..i] == a[..i]
    ensures l[i := a[i]][..i + 1] == a[..i + 1]
    ensures i + 1 == WORDS ==> l[i := a[i]] == a
  {
    assert l[i := a[i]][..i + 1] == l[..i] + [a[i]];
    assert l[i := a[i]][..WORDS] == l[i := a[i]] && a[..WORDS] == a;
  }

  lemma ScanKeepsStatus(m: Memory, q: Streams, i: MemoryInput, t: Registers)
    requires m.index < WORDS && StatusAddresses(q.status) && PutStatus(t, q.status) == m.old_
    ensures var p := MemoryStep(m, q, i);
            StatusAddresses(p.1.status) && PutStatus(t, p.1.status) == p.0.old_ && p.1.mrt == q.mrt
  {
    hide Refreshed;
    var u := Update(m.index, Refreshed(m.status, m.derived)[m.index]);
    assert (q.status + [u])[..|q.status|] == q.status;
  }

  // ---- All runs ----

  ghost predicate Inv(s: Sys) {
    SysOk(s) && Handover(s) && AgencyFollows(s) && StatusFollows(s)
  }

  lemma A4lKeeps(s: Sys, full: Full)
    requires Inv(s)
    ensures Inv(Next(s, A4lCall(full)))
  {
    hide Handover, PutAll, PutStatus, MainStep, SubSteps, InPipe;
    A4lKeepsHandover(s, full);
    MainKeepsAgency(s);
    MainKeepsStatus(s);
    SubsAreInert(MainNext(s), full, 0);
  }

  lemma StepKeeps(s: Sys, x: Action)
    requires Inv(s) && Allowed(s, x)
    ensures Inv(Next(s, x))
  {
    match x
    case FmcCall(elapsed) =>
      FmcKeepsHandover(s, elapsed);
      FmcWrites(s, elapsed);
    case A4lCall(full) =>
      A4lKeeps(s, full);
      hide Inv;
    case MemoryCall(i) =>
      MemoryKeepsHandover(s, i);
      ScanKeepsStatus(s.m, s.q, i, s.a.status);
      hide Handover, PutAll, PutStatus, MemoryStep;
    case AgencyCall(full) =>
      hide Answered;
      if s.q.mrt != [] {
        PutFirst(s.agency, s.q.mrt);
      }
      hide PutAll, PutStatus;
    case ChangeTable(mrt, maxNode) =>
      ChangeKeepsHandover(s, x);
      hide Handover, PutAll, PutStatus;
    case _ =>
      hide PutAll, PutStatus;
  }

  /** The core writes only the configuration and the table of the link. */
  lemma FmcWrites(s: Sys, elapsed: bool)
    requires SysOk(s)
    ensures var r := Next(s, FmcCall(elapsed));
            r.l.status == s.l.status && r.a == s.a && r.m == s.m && r.q == s.q && r.agency == s.agency
            && r.announced == s.announced
  {
  }

  function Run(s: Sys, xs: seq<Action>): (r: Sys)
    requires SysOk(s) && AllAllowed(s, xs)
    ensures SysOk(r)
    decreases |xs|
  {
    if xs == [] then s else Run(Next(s, xs[0]), xs[1..])
  }

  ghost predicate AllAllowed(s: Sys, xs: seq<Action>)
    requires SysOk(s)
    decreases |xs|
  {
    xs == [] || (Allowed(s, xs[0]) && AllAllowed(Next(s, xs[0]), xs[1..]))
  }

  /** After power-up: version 0, marked rows, zero status words, empty streams. */
  ghost predicate PowerUp(s: Sys) {
    && SysOk(s) && s.f.version == 0 && !s.f.fsm.UpdateMrt?
    && s.a.fsm.CopyConfig? && (forall r | 0 <= r < MAX_MRT_SIZE :: s.a.mrt[r] == MRT_MARKER && s.agency[r] == 0)
    && s.a.status == s.m.old_ && s.q.status == [] && s.q.mrt == [] && s.announced == {}
  }

  lemma StartKeeps(s: Sys)
    requires PowerUp(s)
    ensures Inv(s)
  {
  }

  lemma {:induction false} RunKeeps(s: Sys, xs: seq<Action>)
    requires Inv(s) && AllAllowed(s, xs)
    ensures Inv(Run(s, xs))
    decreases |xs|
  {
    hide Next, Handover, AgencyFollows, StatusFollows, InPipe, InConfig;
    if xs != [] {
      StepKeeps(s, xs[0]);
      RunKeeps(Next(s, xs[0]), xs[1..]);
    }
  }

  /** A lookup of a rank from 0 to `max_discovered_node_id` returns the core's row if and only if that row is not the
      marker value or was announced before; otherwise it returns zero. */
  ghost predicate Served(t: Table, f: Fmc, announced: set<nat>) {
    forall r | 0 <= r <= f.maxNode && r < MAX_MRT_SIZE ::
      && (GetIp(t, r) == f.mrt[r] <==> f.mrt[r] != MRT_MARKER || r in announced)
      && (GetIp(t, r) == f.mrt[r] || GetIp(t, r) == 0)
  }

  /** The row `nid` is the first of the core's rows with the address `ip`. */
  ghost predicate FirstRow(f: Fmc, ip: nat, nid: nat) {
    nid <= f.maxNode && nid < MAX_MRT_SIZE && f.mrt[nid] == ip && forall j | 0 <= j < nid :: f.mrt[j] != ip
  }

  /** The core has a row with the address `ip`. */
  ghost predicate HasRow(f: Fmc, ip: nat) {
    exists r | 0 <= r < MAX_MRT_SIZE :: r <= f.maxNode && f.mrt[r] == ip
  }

  /** No row of the core is missing at the agency. */
  ghost predicate NoneMissing(f: Fmc, announced: set<nat>) {
    forall r | 0 <= r <= f.maxNode && r < MAX_MRT_SIZE :: f.mrt[r] != MRT_MARKER || r in announced
  }

  /** A reverse lookup of an address of the core returns its first row there. An address that the core does not have
      gives the invalid value, or a row above `max_discovered_node_id` that still holds it. Only for zero and the
      marker value does this need every row to be announced. */
  lemma ReverseServed(t: Table, f: Fmc, announced: set<nat>, ip: nat, nid: nat)
    requires Served(t, f, announced) && IsNodeId(t, ip, nid) && f.maxNode < MAX_MRT_SIZE
    requires (ip != 0 && ip != MRT_MARKER) || NoneMissing(f, announced)
    ensures if HasRow(f, ip) then FirstRow(f, ip, nid)
            else nid == INVALID_MRT_VALUE || (f.maxNode < nid < MAX_MRT_SIZE && t[nid] == ip)
  {
    forall r | 0 <= r <= f.maxNode
      ensures t[r] == ip <==> f.mrt[r] == ip
    {
      assert GetIp(t, r) == t[r];
    }
    if HasRow(f, ip) {
      var r :| 0 <= r < MAX_MRT_SIZE && r <= f.maxNode && f.mrt[r] == ip;
      assert t[r] == ip;
    }
  }

  /** An unannounced row hides: its address is not found, and zero is found there. */
  lemma MissingRowHides(t: Table, f: Fmc, announced: set<nat>, r: nat)
    requires Served(t, f, announced) && r <= f.maxNode < MAX_MRT_SIZE && f.mrt[r] == MRT_MARKER && r !in announced
    ensures GetIp(t, r) == 0 && !IsNodeId(t, MRT_MARKER, r)
    ensures (forall j | 0 <= j < r :: t[j] != 0) ==> IsNodeId(t, 0, r)
  {
  }

  lemma HandedOverIsServed(s: Sys)
    requires AgencyFollows(s) && s.q.mrt == [] && RowsAgree(s.a.mrt, s.f, MAX_MRT_SIZE)
    ensures Served(s.agency, s.f, s.announced)
  {
  }

  /** In every allowed run: if the core reads back its own version, then rows 0 to `max_discovered_node_id` of the
      AXI process's table are the core's, and so are the answers of every lookup that finds no queued update, except for
      rows equal to the marker value that were never announced. */
  lemma ReadBackMeansHandedOver(s0: Sys, xs: seq<Action>)
    requires PowerUp(s0) && AllAllowed(s0, xs)
    ensures var s := Run(s0, xs);
            s.f.version >= 1 && s.f.nalStatus[STATUS_MRT_VERSION] == s.f.version ==>
              && s.f.maxNode < MAX_MRT_SIZE && RowsAgree(s.a.mrt, s.f, MAX_MRT_SIZE)
              && (s.q.mrt == [] ==> Served(s.agency, s.f, s.announced))
  {
    hide Run, AllAllowed, StatusFollows, AgencyFollows, Served;
    StartKeeps(s0);
    RunKeeps(s0, xs);
    var s := Run(s0, xs);
    if s.f.version >= 1 && s.f.nalStatus[STATUS_MRT_VERSION] == s.f.version && s.q.mrt == [] {
      HandedOverIsServed(s);
    }
  }

  /** The same from the moment the version is broadcast: the cache is invalidated and the status word is set only
      after the table is in place. */
  lemma BroadcastMeansHandedOver(s0: Sys, xs: seq<Action>)
    requires PowerUp(s0) && AllAllowed(s0, xs)
    ensures var s := Run(s0, xs);
            s.f.version >= 1 && s.a.processed == s.f.version && s.q.mrt == [] ==> Served(s.agency, s.f, s.announced)
  {
    hide Run, AllAllowed, StatusFollows, AgencyFollows, Served;
    StartKeeps(s0);
    RunKeeps(s0, xs);
    var s := Run(s0, xs);
    if s.f.version >= 1 && s.a.processed == s.f.version && s.q.mrt == [] {
      HandedOverIsServed(s);
    }
  }

  /** With no update queued, the answer to a reverse lookup after the core has read back its own version. */
  lemma ReadBackMeansFound(s0: Sys, xs: seq<Action>, ip: nat, nid: nat)
    requires PowerUp(s0) && AllAllowed(s0, xs)
    requires var s := Run(s0, xs);
             && s.f.version >= 1 && s.f.nalStatus[STATUS_MRT_VERSION] == s.f.version && s.q.mrt == []
             && IsNodeId(s.agency, ip, nid) && ((ip != 0 && ip != MRT_MARKER) || NoneMissing(s.f, s.announced))
    ensures var s := Run(s0, xs);
            if HasRow(s.f, ip) then FirstRow(s.f, ip, nid)
            else nid == INVALID_MRT_VALUE || (s.f.maxNode < nid < MAX_MRT_SIZE && s.agency[nid] == ip)
  {
    hide Run, AllAllowed, IsNodeId, HasRow, FirstRow, NoneMissing, Served;
    ReadBackMeansHandedOver(s0, xs);
    var s := Run(s0, xs);
    ReverseServed(s.agency, s.f, s.announced, ip, nid);
  }

  // ---- Rows equal to the marker ----

  /** The row `r` holds the marker value wherever it is, and was not announced. */
  ghost predicate Unannounced(s: Sys, r: nat)
    requires r < MAX_MRT_SIZE
  {
    && s.f.mrt[r] == MRT_MARKER && s.l.mrt[r] == MRT_MARKER && s.a.mrt[r] == MRT_MARKER && s.agency[r] == 0
    && r !in s.announced && forall k | 0 <= k < |s.q.mrt| :: s.q.mrt[k].address != r
  }

  /** No table change gives the row `r` another value. */
  ghost predicate LeavesMarker(xs: seq<Action>, r: nat)
    requires r < MAX_MRT_SIZE
  {
    forall k | 0 <= k < |xs| :: xs[k].ChangeTable? ==> xs[k].mrt[r] == MRT_MARKER
  }

  lemma StaysUnannounced(s: Sys, x: Action, r: nat)
    requires SysOk(s) && Allowed(s, x) && r < MAX_MRT_SIZE && Unannounced(s, r)
    requires x.ChangeTable? ==> x.mrt[r] == MRT_MARKER
    ensures Unannounced(Next(s, x), r)
  {
    hide InPipe, InConfig;
    match x
    case FmcCall(elapsed) => FmcWrites(s, elapsed);
    case A4lCall(full) =>
      MainStaysUnannounced(s, r);
      SubsAreInert(MainNext(s), full, 0);
      hide SubSteps, MainStep;
    case MemoryCall(i) => hide Refreshed;
    case _ =>
  }

  lemma MainStaysUnannounced(s: Sys, r: nat)
    requires SysOk(s) && r < MAX_MRT_SIZE && Unannounced(s, r)
    ensures Unannounced(MainNext(s), r)
  {
  }

  lemma {:induction false} NeverAnnounced(s: Sys, xs: seq<Action>, r: nat)
    requires SysOk(s) && AllAllowed(s, xs) && r < MAX_MRT_SIZE && Unannounced(s, r) && LeavesMarker(xs, r)
    ensures Unannounced(Run(s, xs), r)
    decreases |xs|
  {
    hide Next, Unannounced;
    if xs != [] {
      assert xs[0].ChangeTable? ==> xs[0].mrt[r] == MRT_MARKER;
      assert forall k | 0 <= k < |xs[1..]| :: xs[1..][k] == xs[k + 1];
      StaysUnannounced(s, xs[0], r);
      NeverAnnounced(Next(s, xs[0]), xs[1..], r);
    }
  }

  /** After power-up the core takes a table whose row 0 is the marker value, and hands it over at once. */
  function HandOverFirst(t: Table): seq<Action> {
    [ChangeTable(t, 0), FmcCall(false), FmcCall(false)]
  }

  /** Row 0 then stands in the link before the first pass copies it: it is never announced, and the lookup of rank 0
      returns zero in every state of every run that keeps the row. */
  lemma MarkerRowNotServed(s0: Sys, t: Table, xs: seq<Action>)
    requires PowerUp(s0) && s0.f.fsm.LinkWait? && !s0.f.needConfig && t[0] == MRT_MARKER && LeavesMarker(xs, 0)
    requires AllAllowed(s0, HandOverFirst(t) + xs)
    ensures var s := Run(s0, HandOverFirst(t) + xs);
            s.f.mrt[0] == MRT_MARKER && 0 !in s.announced && GetIp(s.agency, 0) == 0
  {
    hide InPipe, InConfig;
    var a, b := ChangeTable(t, 0), FmcCall(false);
    ThreeSteps(s0, a, b, b, xs);
    var s3 := Next(Next(Next(s0, a), b), b);
    assert Unannounced(s3, 0);
    hide Next, AllAllowed, Run, Unannounced;
    NeverAnnounced(s3, xs, 0);
    UnannouncedMeans(Run(s3, xs), 0);
  }

  lemma RunFirst(s: Sys, zs: seq<Action>)
    requires SysOk(s) && zs != [] && AllAllowed(s, zs)
    ensures Allowed(s, zs[0]) && AllAllowed(Next(s, zs[0]), zs[1..]) && Run(s, zs) == Run(Next(s, zs[0]), zs[1..])
  {
    hide Next, InPipe, InConfig;
  }

  lemma ThreeSteps(s: Sys, a: Action, b: Action, c: Action, xs: seq<Action>)
    requires SysOk(s) && AllAllowed(s, [a, b, c] + xs)
    ensures Allowed(s, a) && Allowed(Next(s, a), b) && Allowed(Next(Next(s, a), b), c)
    ensures var s3 := Next(Next(Next(s, a), b), c);
            AllAllowed(s3, xs) && Run(s, [a, b, c] + xs) == Run(s3, xs)
  {
    hide Next, Run, AllAllowed, SysOk, InPipe, InConfig;
    assert ([a, b, c] + xs)[1..] == [b, c] + xs && ([b, c] + xs)[1..] == [c] + xs && ([c] + xs)[1..] == xs;
    RunFirst(s, [a, b, c] + xs);
    RunFirst(Next(s, a), [b, c] + xs);
    RunFirst(Next(Next(s, a), b), [c] + xs);
  }

  lemma UnannouncedMeans(s: Sys, r: nat)
    requires r < MAX_MRT_SIZE && Unannounced(s, r)
    ensures s.f.mrt[r] == MRT_MARKER && r !in s.announced && s.agency[r] == 0
  {
  }

  // ---- Fresh versions ----

  /** No version on its way is above the core's. */
  ghost predicate Bounded(s: Sys) {
    forall v: nat :: InPipe(s, v) || InConfig(s, v) ==> v <= s.f.version
  }

  /** The registers and streams that carry versions are cleared. */
  ghost predicate Zeroed(s: Sys) {
    && s.a.processed == 0 && s.q.version1 == [] && s.m.status[STATUS_MRT_VERSION] == s.m.old_[STATUS_MRT_VERSION] == 0
    && s.a.status[STATUS_MRT_VERSION] == s.l.status[STATUS_MRT_VERSION] == s.f.nalStatus[STATUS_MRT_VERSION] == 0
    && s.l.config[CONFIG_MRT_VERSION] == s.a.config[CONFIG_MRT_VERSION] == 0
  }

  lemma ZeroedBounded(s: Sys)
    requires PowerUp(s) && Zeroed(s)
    ensures Bounded(s)
  {
  }

  lemma FmcAddsVersion(s: Sys, elapsed: bool, v: nat)
    requires SysOk(s)
    ensures var r := Next(s, FmcCall(elapsed));
            && (InPipe(r, v) ==> InPipe(s, v)) && (InConfig(r, v) ==> InConfig(s, v) || v == s.f.version)
            && r.f.version == s.f.version
  {
  }

  lemma MemoryAddsNothing(s: Sys, i: MemoryInput, v: nat)
    requires SysOk(s)
    ensures var r := Next(s, MemoryCall(i)); (InPipe(r, v) ==> InPipe(s, v)) && (InConfig(r, v) ==> InConfig(s, v))
  {
  }

  lemma A4lAddsConfig(s: Sys, full: Full, v: nat)
    requires SysOk(s)
    ensures var r := Next(s, A4lCall(full));
            && (InPipe(r, v) ==> InPipe(s, v) || InConfig(s, v)) && (InConfig(r, v) ==> InConfig(s, v))
  {
    MainPipe(s, v);
    SubsAreInert(MainNext(s), full, v);
    hide InPipe, MainStep, SubSteps;
  }

  lemma StepBounded(s: Sys, x: Action)
    requires SysOk(s) && Bounded(s) && (x.ChangeTable? ==> TableOk(s, x) && s.f.version + 1 < VERSIONS)
    ensures Allowed(s, x) && Bounded(Next(s, x))
    ensures Next(s, x).f.version == if x.ChangeTable? then s.f.version + 1 else s.f.version
  {
    var r := Next(s, x);
    if x.FmcCall? {
      FmcAddsVersion(s, x.elapsed, 0);
    }
    forall v: nat | InPipe(r, v) || InConfig(r, v)
      ensures v <= r.f.version
    {
      match x
      case FmcCall(elapsed) => FmcAddsVersion(s, elapsed, v);
      case A4lCall(full) => A4lAddsConfig(s, full, v);
      case MemoryCall(i) => MemoryAddsNothing(s, i, v);
      case _ => assert InPipe(s, v) || InConfig(s, v);
    }
  }

  function Changes(xs: seq<Action>): nat {
    if xs == [] then 0 else (if xs[0].ChangeTable? then 1 else 0) + Changes(xs[1..])
  }

  ghost predicate TablesOk(s: Sys, xs: seq<Action>)
    requires SysOk(s)
    decreases |xs|
  {
    xs == [] || ((xs[0].ChangeTable? ==> TableOk(s, xs[0])) && TablesOk(Next(s, xs[0]), xs[1..]))
  }

  /** The freshness of versions needs no assumption in a run of fewer than 2^32 table changes from cleared registers. */
  lemma {:induction false} VersionsAreFresh(s: Sys, xs: seq<Action>)
    requires SysOk(s) && Bounded(s) && TablesOk(s, xs) && s.f.version + Changes(xs) < VERSIONS
    ensures AllAllowed(s, xs)
    decreases |xs|
  {
    hide InPipe, InConfig, Bounded, TableOk, FmcStep, A4lStep, MemoryStep, Put;
    if xs != [] {
      StepBounded(s, xs[0]);
      VersionsAreFresh(Next(s, xs[0]), xs[1..]);
    }
  }

  lemma FreshFromPowerUp(s: Sys, xs: seq<Action>)
    requires PowerUp(s) && Zeroed(s) && TablesOk(s, xs) && Changes(xs) < VERSIONS
    ensures AllAllowed(s, xs)
  {
    hide Bounded, Zeroed, TablesOk, AllAllowed, InPipe, InConfig;
    ZeroedBounded(s);
    VersionsAreFresh(s, xs);
  }

  // ---- A table change during a running hand-over ----

  /** `n` calls of the core. */
  function CoreCalls(f: Fmc, l: Link, n: nat): (r: (Fmc, Link))
    requires FmcOk(f)
    ensures FmcOk(r.0)
    decreases n
  {
    if n == 0 then (f, l) else
      var p := FmcStep(f, l, false);
      CoreCalls(p.0, p.1, n - 1)
  }

  /** The rest of a running `LINKFSM_UPDATE_MRT`: the remaining rows are the current ones, and the version is
      published. */
  lemma {:induction false} UpdateEnds(f: Fmc, l: Link)
    requires FmcOk(f) && f.fsm.UpdateMrt?
    ensures var r := CoreCalls(f, l, f.maxNode + 1 - f.copyIndex);
            && r.0.mrt == f.mrt && r.0.maxNode == f.maxNode && r.0.version == f.version
            && r.0.fsm.LinkIdle? && !r.0.needMrt && r.1.config[CONFIG_MRT_VERSION] == f.version
            && forall k | 0 <= k < MAX_MRT_SIZE :: r.1.mrt[k] == if f.copyIndex <= k <= f.maxNode then f.mrt[k]
                else l.mrt[k]
    decreases f.maxNode - f.copyIndex
  {
    var p := FmcStep(f, l, false);
    if f.copyIndex < f.maxNode {
      UpdateEnds(p.0, p.1);
    } else {
      assert CoreCalls(p.0, p.1, 0) == p;
    }
  }

  /** A table that changes during a running hand-over is published with its new version; the published rows are the
      table's if and only if the change left all rows already copied alone. */
  lemma ChangeDuringUpdateMixes(s: Sys, mrt: Table, maxNode: nat)
    requires SysOk(s) && Handover(s) && s.f.fsm.UpdateMrt? && s.f.copyIndex <= maxNode < MAX_MRT_SIZE
    ensures var g := s.f.(mrt := mrt, maxNode := maxNode, version := NextVersion(s.f.version), needMrt := true);
            var r := CoreCalls(g, s.l, maxNode + 1 - s.f.copyIndex);
            && r.1.config[CONFIG_MRT_VERSION] == r.0.version == g.version && !r.0.needMrt && r.0.mrt == mrt
            && (RowsAgree(r.1.mrt, r.0, MAX_MRT_SIZE) <==> forall k | 0 <= k < s.f.copyIndex :: mrt[k] == s.f.mrt[k])
  {
    hide InPipe, InConfig, CoreCalls;
    var g := s.f.(mrt := mrt, maxNode := maxNode, version := NextVersion(s.f.version), needMrt := true);
    UpdateEnds(g, s.l);
    var r := CoreCalls(g, s.l, maxNode + 1 - s.f.copyIndex);
    assert forall k | 0 <= k < s.f.copyIndex :: s.l.mrt[k] == s.f.mrt[k];
    assert forall k | 0 <= k < s.f.copyIndex :: r.1.mrt[k] == s.l.mrt[k];
  }

  /** The clear at the end of a reconfiguration does this: it is published mixed exactly if a row already copied was not
      zero. */
  lemma ClearDuringUpdateMixes(s: Sys)
    requires SysOk(s) && Handover(s) && s.f.fsm.UpdateMrt?
    ensures var t := ClearedRouting(Routing(s.f.mrt, s.f.maxNode, s.f.version, s.f.needMrt));
            var g := s.f.(mrt := t.mrt, maxNode := t.maxNode, version := t.version, needMrt := t.needMrt);
            var r := CoreCalls(g, s.l, s.f.maxNode + 1 - s.f.copyIndex);
            && r.1.config[CONFIG_MRT_VERSION] == r.0.version == t.version && !r.0.needMrt
            && (RowsAgree(r.1.mrt, r.0, MAX_MRT_SIZE) <==> forall k | 0 <= k < s.f.copyIndex :: s.f.mrt[k] == 0)
  {
    hide Handover, CoreCalls, RowsAgree;
    ChangeDuringUpdateMixes(s, ClearedRows(s.f.mrt, s.f.maxNode), s.f.maxNode);
  }

  /** In every allowed run: the queued status updates bring the AXI process to the last announced status, and after
      a completed copy with nothing queued and every change announced, the link shows the status memory's words. */
  lemma StatusReplicated(s0: Sys, xs: seq<Action>)
    requires PowerUp(s0) && AllAllowed(s0, xs)
    ensures var s := Run(s0, xs);
            && StatusAddresses(s.q.status) && PutStatus(s.a.status, s.q.status) == s.m.old_
            && ((s.a.fsm.CopyFinish? || s.a.fsm.WaitForSubFsms?) && s.q.status == [] && s.m.old_ == s.m.status ==>
                  s.l.status == s.m.status)
  {
    hide Run, AllAllowed, Handover, AgencyFollows;
    StartKeeps(s0);
    RunKeeps(s0, xs);
  }

  /** `n` consecutive idle scans with room in the stream. */
  function Scans(m: Memory, q: Streams, n: nat): (r: (Memory, Streams))
    requires m.index < WORDS
    ensures r.0.index < WORDS
  {
    if n == 0 then (m, q) else
      var p := Scans(m, q, n - 1);
      Scan(p.0, p.1, false)
  }

  lemma RefreshTwice(s: Registers, d: Derived)
    ensures Refreshed(Refreshed(s, d), d) == Refreshed(s, d)
  {
  }

  /** Address `j` is among the `n` addresses from `start` on, cyclically. */
  predicate Passed(start: nat, n: nat, j: nat) {
    (if j >= start then j - start else j + WORDS - start) < n
  }

  lemma {:induction false} ScansCover(m: Memory, q: Streams, n: nat)
    requires m.index < WORDS && n <= WORDS
    ensures var r := Scans(m, q, n).0;
            && r.derived == m.derived && (n > 0 ==> r.status == Refreshed(m.status, m.derived))
            && r.index == (if m.index + n < WORDS then m.index + n else m.index + n - WORDS)
            && forall j | 0 <= j < WORDS && Passed(m.index, n, j) :: r.old_[j] == Refreshed(m.status, m.derived)[j]
  {
    hide Refreshed;
    if n > 0 {
      ScansCover(m, q, n - 1);
      RefreshTwice(m.status, m.derived);
      var p := Scans(m, q, n - 1).0;
      assert forall j | 0 <= j < WORDS :: Passed(m.index, n, j) <==> Passed(m.index, n - 1, j) || j == p.index;
    }
  }

  /** Sixteen idle scans announce every change. */
  lemma SixteenScansSettle(m: Memory, q: Streams)
    requires m.index < WORDS
    ensures var r := Scans(m, q, WORDS).0; r.old_ == r.status && r.status == Refreshed(m.status, m.derived)
  {
    hide Refreshed;
    ScansCover(m, q, WORDS);
    assert forall j | 0 <= j < WORDS :: Passed(m.index, WORDS, j);
  }
}
