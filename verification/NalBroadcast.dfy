/** What the configuration broadcast carries: in every run, each listener is sent exactly the changed words that concern
    it, once and in order, and the copier stores the same words. */
module NalBroadcast {
  import opened NalLink
  import opened NalStatus
  import opened NalHandover

  /** A running broadcast carries the word that is being stored, on the way that its address asks for. */
  ghost predicate Carries(a: A4l) {
    && (!a.cb.CbWait? ==> a.fsm.CopyConfig2? && a.update == Update(a.index, a.newWord))
    && (a.cb.CbStart? ==> a.configProp == (if a.index == 0 then 3 else if 2 <= a.index <= 4 then 2 else 0))
    && (a.cb.Cb30? || a.cb.Cb31? || a.cb.Cb32? ==> a.index == 0)
    && (a.cb.Cb2? ==> 2 <= a.index <= 4) && !a.cb.Cb1?
  }

  lemma MainCarries(a: A4l, l: Link, q: Streams)
    requires A4lOk(a) && StatusAddresses(q.status) && Carries(a)
    ensures Carries(MainStep(a, l, q).0)
  {
  }

  lemma SubsCarry(a: A4l, q: Streams, full: Full)
    requires Carries(a)
    ensures Carries(SubSteps(a, q, full).0)
  {
    var b := BroadcastStep(a, q, full);
    VersionIsInert(b.0, b.1, full);
    hide VersionStep;
  }

  lemma A4lCarries(a: A4l, l: Link, q: Streams, full: Full)
    requires A4lOk(a) && StatusAddresses(q.status) && Carries(a)
    ensures Carries(A4lStep(a, l, q, full).0)
  {
    MainCarries(a, l, q);
    var n := MainStep(a, l, q);
    SubsCarry(n.0, n.2, full);
    hide MainStep, SubSteps, Carries;
  }

  lemma CarriesKept(s: Sys, x: Action)
    requires SysOk(s) && Allowed(s, x) && Carries(s.a)
    ensures Carries(Next(s, x).a)
  {
    hide InPipe, InConfig, Carries;
    match x
    case A4lCall(full) =>
      A4lCarries(s.a, s.l, s.q, full);
      hide A4lStep;
    case FmcCall(elapsed) => hide FmcStep;
    case MemoryCall(i) => hide MemoryStep;
    case _ =>
  }

  lemma {:induction false} CarriesAlways(s: Sys, xs: seq<Action>)
    requires SysOk(s) && AllAllowed(s, xs) && Carries(s.a)
    ensures Carries(Run(s, xs).a)
    decreases |xs|
  {
    hide Next, InPipe, InConfig, Carries;
    if xs != [] {
      CarriesKept(s, xs[0]);
      CarriesAlways(Next(s, xs[0]), xs[1..]);
    }
  }

  // ---- The streams ----

  /** The processes that listen to configuration updates. */
  datatype Listener = PortProcess | UdpReceiver | TcpReceiver | StatusProcess

  function StreamTo(q: Streams, k: Listener): seq<Update> {
    match k
    case PortProcess => q.portLogic
    case UdpReceiver => q.udpRx
    case TcpReceiver => q.tcpRx
    case StatusProcess => q.statusProc
  }

  /** The port process is told the saved port words, the others the rank. */
  predicate Concerns(k: Listener, address: nat) {
    if k.PortProcess? then 2 <= address <= 4 else address == 0
  }

  /** The updates among `us` that concern `k`. */
  function For(k: Listener, us: seq<Update>): seq<Update> {
    if us == [] then [] else (if Concerns(k, us[0].address) then [us[0]] else []) + For(k, us[1..])
  }

  lemma {:induction false} ForConcat(k: Listener, a: seq<Update>, b: seq<Update>)
    ensures For(k, a + b) == For(k, a) + For(k, b)
  {
    if a == [] {
      assert a + b == b;
    } else {
      ForConcat(k, a[1..], b);
      assert (a + b)[1..] == a[1..] + b;
      var first := if Concerns(k, a[0].address) then [a[0]] else [];
      assert first + (For(k, a[1..]) + For(k, b)) == (first + For(k, a[1..])) + For(k, b);
    }
  }

  /** What a longer stream has after a shorter one. */
  function Added(p: seq<Update>, q: seq<Update>): seq<Update> {
    if |p| <= |q| then q[|p|..] else []
  }

  /** What an action adds to the stream of `k`: only the copier writes to it. */
  function SentBy(s: Sys, x: Action, k: Listener): seq<Update>
    requires SysOk(s) && Allowed(s, x)
  {
    if x.A4lCall? then Added(StreamTo(s.q, k), StreamTo(Next(s, x).q, k)) else []
  }

  /** The word that an action stores in the configuration, with its address. */
  function StoredBy(s: Sys, x: Action): seq<Update>
    requires SysOk(s) && Allowed(s, x)
  {
    if x.A4lCall? && s.a.fsm.CopyConfig2? && !Next(s, x).a.fsm.CopyConfig2? then
      [Update(s.a.index, Next(s, x).a.config[s.a.index])]
    else []
  }

  ghost function Sent(s: Sys, xs: seq<Action>, k: Listener): seq<Update>
    requires SysOk(s) && AllAllowed(s, xs)
    decreases |xs|
  {
    if xs == [] then [] else SentBy(s, xs[0], k) + Sent(Next(s, xs[0]), xs[1..], k)
  }

  ghost function Stored(s: Sys, xs: seq<Action>): seq<Update>
    requires SysOk(s) && AllAllowed(s, xs)
    decreases |xs|
  {
    if xs == [] then [] else StoredBy(s, xs[0]) + Stored(Next(s, xs[0]), xs[1..])
  }

  /** The broadcast has passed the listener. */
  predicate Told(cb: Bcast, k: Listener) {
    cb.CbWait? || (k.UdpReceiver? && (cb.Cb31? || cb.Cb32?)) || (k.TcpReceiver? && cb.Cb32?)
  }

  /** The word that `k` was told and that is not stored yet. */
  function Ahead(a: A4l, k: Listener): seq<Update> {
    if a.fsm.CopyConfig2? && Concerns(k, a.index) && Told(a.cb, k) then [Update(a.index, a.newWord)] else []
  }

  /** What a call of the copier tells and stores. */
  ghost predicate TellsOnce(a: A4l, q: Streams, r: (A4l, Streams), stored: seq<Update>, k: Listener) {
    && StreamTo(q, k) <= StreamTo(r.1, k)
    && Ahead(a, k) + Added(StreamTo(q, k), StreamTo(r.1, k)) == For(k, stored) + Ahead(r.0, k)
  }

  lemma SubsTell(a: A4l, q: Streams, full: Full, k: Listener)
    requires Carries(a)
    ensures TellsOnce(a, q, SubSteps(a, q, full), [], k)
  {
    var b := BroadcastStep(a, q, full);
    BroadcastTells(a, q, full, k);
    VersionTellsNone(b.0, b.1, full, k);
    hide BroadcastStep, VersionStep, Told;
  }

  lemma BroadcastTells(a: A4l, q: Streams, full: Full, k: Listener)
    requires Carries(a)
    ensures TellsOnce(a, q, BroadcastStep(a, q, full), [], k)
  {
  }

  lemma VersionTellsNone(a: A4l, q: Streams, full: Full, k: Listener)
    ensures var r := VersionStep(a, q, full);
            && StreamTo(r.1, k) == StreamTo(q, k) && Ahead(r.0, k) == Ahead(a, k)
  {
  }

  /** The word that the main switch stores. */
  function MainStores(a: A4l, r: A4l): seq<Update>
    requires a.fsm.CopyConfig2? ==> a.index < WORDS
  {
    if a.fsm.CopyConfig2? && !r.fsm.CopyConfig2? then [Update(a.index, r.config[a.index])] else []
  }

  lemma MainTells(a: A4l, l: Link, q: Streams, k: Listener)
    requires A4lOk(a) && StatusAddresses(q.status) && Carries(a)
    ensures var n := MainStep(a, l, q); TellsOnce(a, q, (n.0, n.2), MainStores(a, n.0), k)
  {
    ForOne(k, Update(a.index, a.newWord));
    hide For, Propagation;
  }

  lemma ForOne(k: Listener, u: Update)
    ensures For(k, []) == [] && For(k, [u]) == if Concerns(k, u.address) then [u] else []
  {
    assert [u][1..] == [];
  }

  lemma CallTells(s: Sys, full: Full, k: Listener)
    requires SysOk(s) && Carries(s.a)
    ensures var r := Next(s, A4lCall(full)); TellsOnce(s.a, s.q, (r.a, r.q), StoredBy(s, A4lCall(full)), k)
  {
    var n := MainStep(s.a, s.l, s.q);
    MainTells(s.a, s.l, s.q, k);
    MainCarries(s.a, s.l, s.q);
    SubsTell(n.0, n.2, full, k);
    SubsKeep(n.0, n.2, full);
    ForOne(k, s.a.update);
    var r := SubSteps(n.0, n.2, full);
    TellsTwice(s.a, s.q, (n.0, n.2), r, MainStores(s.a, n.0), k);
    hide MainStep, SubSteps, TellsOnce, Carries;
  }

  lemma SubsKeep(a: A4l, q: Streams, full: Full)
    ensures var r := SubSteps(a, q, full).0; r.fsm == a.fsm && r.config == a.config
  {
    BroadcastIsInert(a, q, full);
    var b := BroadcastStep(a, q, full);
    VersionIsInert(b.0, b.1, full);
    hide BroadcastStep, VersionStep;
  }

  lemma TellsTwice(a: A4l, q: Streams, m: (A4l, Streams), r: (A4l, Streams), stored: seq<Update>, k: Listener)
    requires TellsOnce(a, q, m, stored, k) && TellsOnce(m.0, m.1, r, [], k)
    ensures TellsOnce(a, q, r, stored, k)
  {
    hide Ahead;
    var p, n, z := StreamTo(q, k), StreamTo(m.1, k), StreamTo(r.1, k);
    assert Added(p, z) == Added(p, n) + Added(n, z);
    assert Ahead(a, k) + (Added(p, n) + Added(n, z)) == (Ahead(a, k) + Added(p, n)) + Added(n, z);
    assert (For(k, stored) + Ahead(m.0, k)) + Added(n, z) == For(k, stored) + (Ahead(m.0, k) + Added(n, z));
    assert For(k, []) + Ahead(r.0, k) == Ahead(r.0, k);
  }

  lemma ActionTells(s: Sys, x: Action, k: Listener)
    requires SysOk(s) && Allowed(s, x) && Carries(s.a)
    ensures var r := Next(s, x); Ahead(s.a, k) + SentBy(s, x, k) == For(k, StoredBy(s, x)) + Ahead(r.a, k)
  {
    hide InPipe, InConfig, Carries, Ahead;
    match x
    case A4lCall(full) =>
      CallTells(s, full, k);
      hide A4lStep, StoredBy;
    case _ =>
      hide FmcStep, MemoryStep;
      ForOne(k, s.a.update);
      assert Ahead(s.a, k) + [] == [] + Ahead(s.a, k);
  }

  /** In every run: what a listener was told is what was stored for it, then at most the word that is about to be
      stored. */
  lemma {:induction false} RunTells(s: Sys, xs: seq<Action>, k: Listener)
    requires SysOk(s) && AllAllowed(s, xs) && Carries(s.a)
    ensures Ahead(s.a, k) + Sent(s, xs, k) == For(k, Stored(s, xs)) + Ahead(Run(s, xs).a, k)
    decreases |xs|
  {
    hide Next, InPipe, InConfig, Carries, Ahead, SentBy, StoredBy;
    if xs == [] {
      ForOne(k, Update(0, 0));
      assert Ahead(s.a, k) + [] == [] + Ahead(s.a, k);
    } else {
      var r := Next(s, xs[0]);
      ActionTells(s, xs[0], k);
      CarriesKept(s, xs[0]);
      RunTells(r, xs[1..], k);
      ForConcat(k, StoredBy(s, xs[0]), Stored(r, xs[1..]));
      Chain(Ahead(s.a, k), SentBy(s, xs[0], k), Sent(r, xs[1..], k), For(k, StoredBy(s, xs[0])), Ahead(r.a, k),
            For(k, Stored(r, xs[1..])), Ahead(Run(r, xs[1..]).a, k));
    }
  }

  lemma Chain(a: seq<Update>, b: seq<Update>, c: seq<Update>, d: seq<Update>, e: seq<Update>, f: seq<Update>,
              g: seq<Update>)
    requires a + b == d + e && e + c == f + g
    ensures a + (b + c) == (d + f) + g
  {
    assert a + (b + c) == (a + b) + c;
    assert (d + e) + c == d + (e + c);
    assert d + (f + g) == (d + f) + g;
  }

  lemma PutStatusOne(t: Registers, u: Update)
    requires u.address < WORDS
    ensures PutStatus(t, [u]) == t[u.address := u.value] && PutStatus(t, []) == t
  {
    assert [u][..0] == [];
  }

  lemma {:induction false} PutStatusConcat(t: Registers, a: seq<Update>, b: seq<Update>)
    requires StatusAddresses(a) && StatusAddresses(b)
    ensures StatusAddresses(a + b) && PutStatus(t, a + b) == PutStatus(PutStatus(t, a), b)
  {
    if b == [] {
      assert a + b == a;
    } else {
      PutStatusConcat(t, a, b[..|b| - 1]);
      assert (a + b)[..|a + b| - 1] == a + b[..|b| - 1];
    }
  }

  lemma ActionStores(s: Sys, x: Action)
    requires SysOk(s) && Allowed(s, x)
    ensures var u := StoredBy(s, x); StatusAddresses(u) && PutStatus(s.a.config, u) == Next(s, x).a.config
  {
    hide InPipe, InConfig, PutStatus;
    PutStatusOne(s.a.config, Update(0, 0));
    match x
    case A4lCall(full) =>
      MainStoresOne(s.a, s.l, s.q);
      SubsKeep(MainNext(s).a, MainNext(s).q, full);
      hide MainStep, SubSteps;
    case _ => hide FmcStep, MemoryStep;
  }

  lemma MainStoresOne(a: A4l, l: Link, q: Streams)
    requires A4lOk(a) && StatusAddresses(q.status)
    ensures var r := MainStep(a, l, q).0;
            StatusAddresses(MainStores(a, r)) && PutStatus(a.config, MainStores(a, r)) == r.config
  {
    hide PutStatus, Propagation;
    PutStatusOne(a.config, Update(0, 0));
    if a.fsm.CopyConfig2? {
      PutStatusOne(a.config, Update(a.index, a.newWord));
    }
  }

  /** The stored words make up the configuration. */
  lemma {:induction false} RunStores(s: Sys, xs: seq<Action>)
    requires SysOk(s) && AllAllowed(s, xs)
    ensures var u := Stored(s, xs); StatusAddresses(u) && PutStatus(s.a.config, u) == Run(s, xs).a.config
    decreases |xs|
  {
    hide Next, InPipe, InConfig, StoredBy, PutStatus;
    if xs == [] {
      PutStatusOne(s.a.config, Update(0, 0));
    } else {
      ActionStores(s, xs[0]);
      RunStores(Next(s, xs[0]), xs[1..]);
      PutStatusConcat(s.a.config, StoredBy(s, xs[0]), Stored(Next(s, xs[0]), xs[1..]));
    }
  }

  /** In every run from power-up, whenever no word is being stored: the UDP receiver, the TCP receiver and the status
      memory were each told exactly the ranks that were stored, and the port process exactly the saved port words, in
      the order in which they were stored; and the stored words make up the copier's configuration. */
  lemma BroadcastsAreStored(s0: Sys, xs: seq<Action>)
    requires PowerUp(s0) && s0.a.cb.CbWait? && AllAllowed(s0, xs) && !Run(s0, xs).a.fsm.CopyConfig2?
    ensures var u := Stored(s0, xs);
            && Sent(s0, xs, UdpReceiver) == Sent(s0, xs, TcpReceiver) == Sent(s0, xs, StatusProcess)
               == For(UdpReceiver, u)
            && Sent(s0, xs, PortProcess) == For(PortProcess, u)
            && StatusAddresses(u) && PutStatus(s0.a.config, u) == Run(s0, xs).a.config
  {
    hide Run, AllAllowed, Sent, Stored, PutStatus, For;
    ToldStored(s0, xs, UdpReceiver);
    ToldStored(s0, xs, TcpReceiver);
    ToldStored(s0, xs, StatusProcess);
    ToldStored(s0, xs, PortProcess);
    RunStores(s0, xs);
    SameFor(Stored(s0, xs), UdpReceiver, TcpReceiver);
    SameFor(Stored(s0, xs), UdpReceiver, StatusProcess);
  }

  lemma ToldStored(s0: Sys, xs: seq<Action>, k: Listener)
    requires PowerUp(s0) && s0.a.cb.CbWait? && AllAllowed(s0, xs) && !Run(s0, xs).a.fsm.CopyConfig2?
    ensures Sent(s0, xs, k) == For(k, Stored(s0, xs))
  {
    RunTells(s0, xs, k);
    hide *;
    NotAhead(s0.a, k);
    NotAhead(Run(s0, xs).a, k);
    assert [] + Sent(s0, xs, k) == Sent(s0, xs, k);
  }

  lemma NotAhead(a: A4l, k: Listener)
    requires !a.fsm.CopyConfig2?
    ensures Ahead(a, k) == []
  {
  }

  lemma {:induction false} SameFor(us: seq<Update>, j: Listener, k: Listener)
    requires !j.PortProcess? && !k.PortProcess?
    ensures For(j, us) == For(k, us)
  {
    if us != [] {
      SameFor(us[1..], j, k);
    }
  }

  // ---- Full streams ----

  /** No process of the joint system adds to a stream without room; what it would write waits. */
  lemma FullStreamsUnwritten(s: Sys, x: Action)
    requires SysOk(s) && Allowed(s, x)
    ensures var r := Next(s, x);
            && (x.A4lCall? ==>
                  && (x.full.portLogic ==> r.q.portLogic == s.q.portLogic) && (x.full.udpRx ==> r.q.udpRx == s.q.udpRx)
                  && (x.full.tcpRx ==> r.q.tcpRx == s.q.tcpRx)
                  && (x.full.statusProc ==> r.q.statusProc == s.q.statusProc)
                  && (x.full.version0 ==> r.q.version0 == s.q.version0)
                  && (x.full.version1 ==> r.q.version1 == s.q.version1))
            && (x.MemoryCall? && x.i.statusFull ==> r.q.status == s.q.status)
  {
    hide InPipe, InConfig;
    match x
    case A4lCall(full) =>
      var n := MainStep(s.a, s.l, s.q);
      MainKeepsListeners(s.a, s.l, s.q);
      SubsFull(n.0, n.2, full);
      hide MainStep, SubSteps;
    case MemoryCall(i) => hide Refreshed;
    case _ => hide FmcStep;
  }

  lemma MainKeepsListeners(a: A4l, l: Link, q: Streams)
    requires A4lOk(a) && StatusAddresses(q.status)
    ensures var n := MainStep(a, l, q).2;
            && n.portLogic == q.portLogic && n.udpRx == q.udpRx && n.tcpRx == q.tcpRx && n.statusProc == q.statusProc
            && n.version0 == q.version0 && n.version1 == q.version1
  {
    hide Propagation;
  }

  lemma SubsFull(a: A4l, q: Streams, full: Full)
    ensures var n := SubSteps(a, q, full).1;
            && (full.portLogic ==> n.portLogic == q.portLogic) && (full.udpRx ==> n.udpRx == q.udpRx)
            && (full.tcpRx ==> n.tcpRx == q.tcpRx) && (full.statusProc ==> n.statusProc == q.statusProc)
            && (full.version0 ==> n.version0 == q.version0) && (full.version1 ==> n.version1 == q.version1)
  {
  }

  // ---- The version broadcast ----

  /** The cache invalidation and the status memory listen to table versions. */
  datatype VersionListener = CacheInvalidation | StatusMemoryVersion

  function VersionsTo(q: Streams, k: VersionListener): seq<nat> {
    match k
    case CacheInvalidation => q.version0
    case StatusMemoryVersion => q.version1
  }

  /** A version broadcast runs only at the end of a pass. */
  ghost predicate AtEnd(a: A4l) {
    (a.mb.CbWait? || a.fsm.WaitForSubFsms?) && (a.mb.CbWait? || a.mb.CbStart? || a.mb.Cb1? || a.mb.Cb2?)
  }

  /** The version that `k` is still to be sent. */
  function Behind(a: A4l, k: VersionListener): seq<nat> {
    if a.mb.CbStart? || a.mb.Cb1? || (a.mb.Cb2? && k.StatusMemoryVersion?) then [a.processed] else []
  }

  /** The version that an action acknowledges. */
  function AcknowledgedBy(s: Sys, x: Action): seq<nat>
    requires SysOk(s) && Allowed(s, x)
  {
    if Next(s, x).a.processed != s.a.processed then [Next(s, x).a.processed] else []
  }

  function VersionsSentBy(s: Sys, x: Action, k: VersionListener): seq<nat>
    requires SysOk(s) && Allowed(s, x)
  {
    var p, q := VersionsTo(s.q, k), VersionsTo(Next(s, x).q, k);
    if x.A4lCall? && |p| <= |q| then q[|p|..] else []
  }

  ghost function VersionsSent(s: Sys, xs: seq<Action>, k: VersionListener): seq<nat>
    requires SysOk(s) && AllAllowed(s, xs)
    decreases |xs|
  {
    if xs == [] then [] else VersionsSentBy(s, xs[0], k) + VersionsSent(Next(s, xs[0]), xs[1..], k)
  }

  ghost function AcknowledgedIn(s: Sys, xs: seq<Action>): seq<nat>
    requires SysOk(s) && AllAllowed(s, xs)
    decreases |xs|
  {
    if xs == [] then [] else AcknowledgedBy(s, xs[0]) + AcknowledgedIn(Next(s, xs[0]), xs[1..])
  }

  lemma MainAcknowledges(a: A4l, l: Link, q: Streams, k: VersionListener)
    requires A4lOk(a) && StatusAddresses(q.status) && AtEnd(a)
    ensures var n := MainStep(a, l, q);
            && AtEnd(n.0) && VersionsTo(n.2, k) == VersionsTo(q, k)
            && Behind(n.0, k) == Behind(a, k) + if n.0.processed != a.processed then [n.0.processed] else []
  {
    hide Propagation;
  }

  lemma SubsSendVersion(a: A4l, q: Streams, full: Full, k: VersionListener)
    requires AtEnd(a)
    ensures var r := SubSteps(a, q, full);
            && AtEnd(r.0) && r.0.processed == a.processed && VersionsTo(q, k) <= VersionsTo(r.1, k)
            && VersionsTo(r.1, k)[|VersionsTo(q, k)|..] + Behind(r.0, k) == Behind(a, k)
  {
    var b := BroadcastStep(a, q, full);
    BroadcastIsInert(a, q, full);
    BroadcastSendsNoVersion(a, q, full, k);
    hide BroadcastStep;
  }

  lemma BroadcastSendsNoVersion(a: A4l, q: Streams, full: Full, k: VersionListener)
    ensures VersionsTo(BroadcastStep(a, q, full).1, k) == VersionsTo(q, k)
  {
  }

  lemma ActionSendsVersion(s: Sys, x: Action, k: VersionListener)
    requires SysOk(s) && Allowed(s, x) && AtEnd(s.a)
    ensures var r := Next(s, x);
            AtEnd(r.a) && VersionsSentBy(s, x, k) + Behind(r.a, k) == Behind(s.a, k) + AcknowledgedBy(s, x)
  {
    hide InPipe, InConfig, AtEnd, Behind;
    match x
    case A4lCall(full) =>
      var n := MainStep(s.a, s.l, s.q);
      MainAcknowledges(s.a, s.l, s.q, k);
      SubsSendVersion(n.0, n.2, full, k);
      hide MainStep, SubSteps;
    case _ =>
      hide FmcStep, MemoryStep;
      assert [] + Behind(s.a, k) == Behind(s.a, k) + [];
  }

  lemma {:induction false} RunSendsVersions(s: Sys, xs: seq<Action>, k: VersionListener)
    requires SysOk(s) && AllAllowed(s, xs) && AtEnd(s.a)
    ensures AtEnd(Run(s, xs).a)
    ensures VersionsSent(s, xs, k) + Behind(Run(s, xs).a, k) == Behind(s.a, k) + AcknowledgedIn(s, xs)
    decreases |xs|
  {
    hide Next, InPipe, InConfig, AtEnd, Behind, VersionsSentBy, AcknowledgedBy;
    if xs == [] {
      assert [] + Behind(s.a, k) == Behind(s.a, k) + [];
    } else {
      var r, rest := Next(s, xs[0]), xs[1..];
      ActionSendsVersion(s, xs[0], k);
      RunSendsVersions(r, rest, k);
      VersionChain(VersionsSentBy(s, xs[0], k), VersionsSent(r, rest, k), Behind(Run(r, rest).a, k), Behind(r.a, k),
                   Behind(s.a, k), AcknowledgedBy(s, xs[0]), AcknowledgedIn(r, rest));
    }
  }

  lemma VersionChain(a: seq<nat>, b: seq<nat>, z: seq<nat>, m: seq<nat>, o: seq<nat>, c: seq<nat>, d: seq<nat>)
    requires b + z == m + d && a + m == o + c
    ensures (a + b) + z == o + (c + d)
  {
    assert (a + b) + z == a + (b + z);
    assert a + (m + d) == (a + m) + d;
    assert (o + c) + d == o + (c + d);
  }

  /** In every run from power-up, whenever no version broadcast is going on: the cache invalidation and the status
      memory were each sent exactly the versions that the copier acknowledged, once and in order. */
  lemma VersionsAreSent(s0: Sys, xs: seq<Action>)
    requires PowerUp(s0) && s0.a.mb.CbWait? && AllAllowed(s0, xs) && Run(s0, xs).a.mb.CbWait?
    ensures VersionsSent(s0, xs, CacheInvalidation) == VersionsSent(s0, xs, StatusMemoryVersion)
            == AcknowledgedIn(s0, xs)
  {
    hide Run, AllAllowed, VersionsSent, AcknowledgedIn;
    RunSendsVersions(s0, xs, CacheInvalidation);
    RunSendsVersions(s0, xs, StatusMemoryVersion);
    hide *;
    NoneBehind(s0.a);
    NoneBehind(Run(s0, xs).a);
    var a, b, c := VersionsSent(s0, xs, CacheInvalidation), VersionsSent(s0, xs, StatusMemoryVersion),
                   AcknowledgedIn(s0, xs);
    assert a + [] == a && b + [] == b && [] + c == c;
  }

  lemma NoneBehind(a: A4l)
    requires a.mb.CbWait?
    ensures Behind(a, CacheInvalidation) == Behind(a, StatusMemoryVersion) == []
  {
  }
}
