/** Progress of the routing-table hand-over: after the last table change, boundedly many calls of the core, the copier
    and the status memory bring the version back to the core. */
module NalProgress {
  import opened NalLink
  import opened NalStatus
  import opened NalHandover
  import opened NalSettles

  /** No table, rank or layer change in the schedule. */
  predicate Unchanging(x: Action) {
    !x.ChangeTable? && !x.ChangeRank? && !x.Layer4Off?
  }

  ghost predicate AllUnchanging(xs: seq<Action>) {
    forall x <- xs :: Unchanging(x)
  }

  lemma UnchangingRest(xs: seq<Action>)
    requires AllUnchanging(xs) && xs != []
    ensures Unchanging(xs[0]) && AllUnchanging(xs[1..])
  {
    assert xs[0] in xs && forall x <- xs[1..] :: x in xs;
  }

  /** How many calls of the core are in a schedule; `timed` counts those in which the check interval has passed. */
  function CoreCallsIn(xs: seq<Action>, timed: bool): nat {
    if xs == [] then 0 else
      (if xs[0].FmcCall? && (timed ==> xs[0].elapsed) then 1 else 0) + CoreCallsIn(xs[1..], timed)
  }

  // ---- The core publishes ----

  ghost predicate Published(s: Sys) {
    s.l.config[CONFIG_MRT_VERSION] == s.f.version
  }

  /** Calls of the core until it has published its version, when it has been asked to. */
  function PublishLeft(f: Fmc): (n: nat)
    requires FmcOk(f)
    ensures n <= 88
  {
    match f.fsm
    case UpdateMrt => f.maxNode + 1 - f.copyIndex
    case LinkWait => if f.needConfig then 69 else 66
    case LinkIdle => if f.needConfig then 70 else 67
    case UpdateConfig => 68
    case UpdateSavedState => 71
    case UpdateState => 72 + (WORDS - f.requestCnt)
  }

  lemma CorePublishes(s: Sys, elapsed: bool)
    requires SysOk(s) && (s.f.needMrt || Published(s))
    ensures var r := Next(s, FmcCall(elapsed));
            && r.f.version == s.f.version && (Published(s) ==> Published(r))
            && (!Published(r) ==> r.f.needMrt && PublishLeft(r.f) < PublishLeft(s.f))
  {
  }

  /** Other calls do not touch what the core publishes. */
  lemma OthersKeepConfig(s: Sys, x: Action)
    requires SysOk(s) && Allowed(s, x) && Unchanging(x) && !x.FmcCall?
    ensures var r := Next(s, x); r.f == s.f && r.l.config == s.l.config
  {
    hide InPipe, InConfig;
    match x
    case A4lCall(full) => hide BroadcastStep, VersionStep;
    case MemoryCall(i) => hide MemoryStep;
    case _ =>
  }

  lemma {:induction false} PublishesInTime(s: Sys, xs: seq<Action>)
    requires SysOk(s) && AllAllowed(s, xs) && AllUnchanging(xs) && (s.f.needMrt || Published(s))
    requires Published(s) || CoreCallsIn(xs, false) >= PublishLeft(s.f)
    ensures Published(Run(s, xs)) && Run(s, xs).f.version == s.f.version
    decreases |xs|
  {
    hide Next, Allowed, Published, PublishLeft, Unchanging, AllUnchanging;
    if xs == [] {
      LeftToPublish(s);
    } else {
      UnchangingRest(xs);
      PublishStep(s, xs[0]);
      PublishesInTime(Next(s, xs[0]), xs[1..]);
    }
  }

  lemma LeftToPublish(s: Sys)
    requires SysOk(s)
    ensures PublishLeft(s.f) > 0
  {
  }

  lemma PublishStep(s: Sys, x: Action)
    requires SysOk(s) && Allowed(s, x) && Unchanging(x) && (s.f.needMrt || Published(s))
    ensures var r := Next(s, x);
            && r.f.version == s.f.version && (Published(s) ==> Published(r)) && (!Published(r) ==> r.f.needMrt)
            && (!Published(r) ==> PublishLeft(r.f) + (if x.FmcCall? then 1 else 0) <= PublishLeft(s.f))
  {
    hide Next, PublishLeft;
    match x
    case FmcCall(elapsed) => CorePublishes(s, elapsed);
    case _ => OthersKeepConfig(s, x);
  }

  // ---- The copier acknowledges ----

  /** The copier holds the version and will not store another one. */
  ghost predicate Knows(a: A4l, v: nat) {
    a.config[CONFIG_MRT_VERSION] == v && (a.fsm.CopyConfig2? && a.index == CONFIG_MRT_VERSION ==> a.newWord == v)
  }

  ghost predicate Acknowledged(a: A4l, v: nat) {
    Knows(a, v) && a.processed == v && a.mb.CbWait?
  }

  /** The copier comes to the version in this pass. */
  ghost predicate Before(a: A4l, v: nat) {
    || (a.fsm.CopyConfig? && a.index <= CONFIG_MRT_VERSION)
    || (a.fsm.CopyConfig2? && (a.index == 0 || (a.index == CONFIG_MRT_VERSION && a.newWord == v)))
  }

  /** Calls with room until the version is acknowledged, with `q` status updates queued. */
  ghost function AckLeft(a: A4l, q: nat, v: nat): (n: nat)
    requires A4lOk(a)
    ensures n <= 2 * q + 647
  {
    if Knows(a, v) then
      if a.processed == v then VersionStagesLeft(a.mb)
      else if a.fsm.StatusUpdate? then q + 210
      else if a.fsm.WaitForSubFsms? then q + 210 + PassLeft(a)
      else PassLeft(a)
    else if a.fsm.StatusUpdate? then 2 * q + 451
    else if Before(a, v) then q + 250 + PassLeft(a)
    else 2 * q + 451 + PassLeft(a)
  }

  lemma AckDone(a: A4l, q: nat, v: nat)
    requires A4lOk(a) && VersionStates(a)
    ensures AckLeft(a, q, v) == 0 <==> Acknowledged(a, v)
  {
    hide PassLeft;
  }

  /** The two broadcasts leave everything else alone. */
  lemma SubsInert(a: A4l, q: Streams, full: Full)
    ensures var r := SubSteps(a, q, full).0; r == a.(cb := r.cb, mb := r.mb)
  {
    BroadcastIsInert(a, q, full);
    var b := BroadcastStep(a, q, full);
    VersionIsInert(b.0, b.1, full);
    hide BroadcastStep, VersionStep;
  }

  /** What a call does to the calls left. */
  ghost predicate Acks(a: A4l, q: Streams, full: Full, r: (A4l, Link, Streams), v: nat)
    requires A4lOk(a)
  {
    A4lOk(r.0) && var m, n := AckLeft(a, |q.status|, v), AckLeft(r.0, |r.2.status|, v);
    n <= m && (HasRoom(full) && m > 0 ==> n < m)
  }

  lemma CopyAcks(a: A4l, l: Link, q: Streams, full: Full, v: nat)
    requires A4lOk(a) && StatusAddresses(q.status) && VersionStates(a) && l.config[CONFIG_MRT_VERSION] == v
    requires !Leaves(a) && (a.fsm.CopyConfig?)
    ensures Acks(a, q, full, A4lStep(a, l, q, full), v)
  {
    PassAdvances(a, l, q, full);
    var n := MainStep(a, l, q);
    SubsInert(n.0, n.2, full);
    SubsAdvance(n.0, n.2, full);
    PassBounds(a);
    PassBounds(A4lStep(a, l, q, full).0);
    hide SubSteps, HasRoom, StatusAddresses, Propagation, PassLeft, StagesLeft, VersionStagesLeft;
  }

  lemma StoreAcks(a: A4l, l: Link, q: Streams, full: Full, v: nat)
    requires A4lOk(a) && StatusAddresses(q.status) && VersionStates(a) && l.config[CONFIG_MRT_VERSION] == v
    requires !Leaves(a) && (a.fsm.CopyConfig2?)
    ensures Acks(a, q, full, A4lStep(a, l, q, full), v)
  {
    PassAdvances(a, l, q, full);
    var n := MainStep(a, l, q);
    SubsInert(n.0, n.2, full);
    SubsAdvance(n.0, n.2, full);
    PassBounds(a);
    PassBounds(A4lStep(a, l, q, full).0);
    hide SubSteps, HasRoom, StatusAddresses, Propagation, PassLeft, StagesLeft, VersionStagesLeft;
  }

  lemma RowAcks(a: A4l, l: Link, q: Streams, full: Full, v: nat)
    requires A4lOk(a) && StatusAddresses(q.status) && VersionStates(a) && l.config[CONFIG_MRT_VERSION] == v
    requires !Leaves(a) && (a.fsm.CopyMrt? || a.fsm.CopyStatus?)
    ensures Acks(a, q, full, A4lStep(a, l, q, full), v)
  {
    PassAdvances(a, l, q, full);
    var n := MainStep(a, l, q);
    SubsInert(n.0, n.2, full);
    SubsAdvance(n.0, n.2, full);
    PassBounds(a);
    PassBounds(A4lStep(a, l, q, full).0);
    hide SubSteps, HasRoom, StatusAddresses, Propagation, PassLeft, StagesLeft, VersionStagesLeft;
  }

  lemma EndAcks(a: A4l, l: Link, q: Streams, full: Full, v: nat)
    requires A4lOk(a) && StatusAddresses(q.status) && VersionStates(a) && l.config[CONFIG_MRT_VERSION] == v
    requires !Leaves(a) && (a.fsm.CopyFinish? || a.fsm.WaitForSubFsms?)
    ensures Acks(a, q, full, A4lStep(a, l, q, full), v)
  {
    PassAdvances(a, l, q, full);
    var n := MainStep(a, l, q);
    SubsInert(n.0, n.2, full);
    SubsAdvance(n.0, n.2, full);
    PassBounds(a);
    PassBounds(A4lStep(a, l, q, full).0);
    hide SubSteps, HasRoom, StatusAddresses, Propagation, PassLeft, StagesLeft, VersionStagesLeft;
  }

  /** Outside the drain. */
  lemma PassAcks(a: A4l, l: Link, q: Streams, full: Full, v: nat)
    requires A4lOk(a) && StatusAddresses(q.status) && VersionStates(a) && !Leaves(a)
             && l.config[CONFIG_MRT_VERSION] == v
    ensures Acks(a, q, full, A4lStep(a, l, q, full), v)
  {
    hide A4lStep, Acks, A4lOk, StatusAddresses, VersionStates, Leaves;
    match a.fsm
    case CopyConfig => CopyAcks(a, l, q, full, v);
    case CopyConfig2 => StoreAcks(a, l, q, full, v);
    case CopyMrt => RowAcks(a, l, q, full, v);
    case CopyStatus => RowAcks(a, l, q, full, v);
    case CopyFinish => EndAcks(a, l, q, full, v);
    case WaitForSubFsms => EndAcks(a, l, q, full, v);
    case StatusUpdate => LeavesIs(a);
  }

  lemma LeavesIs(a: A4l)
    ensures a.fsm.StatusUpdate? ==> Leaves(a)
  {
  }

  /** In the drain, and out of it. */
  lemma LeaveAcks(a: A4l, l: Link, q: Streams, full: Full, v: nat)
    requires A4lOk(a) && StatusAddresses(q.status) && VersionStates(a) && Leaves(a) && l.config[CONFIG_MRT_VERSION] == v
    ensures Acks(a, q, full, A4lStep(a, l, q, full), v)
  {
    var n := MainStep(a, l, q);
    SubsInert(n.0, n.2, full);
    SubsAdvance(n.0, n.2, full);
    hide SubSteps, HasRoom, StatusAddresses, StagesLeft;
  }

  lemma CallAcks(a: A4l, l: Link, q: Streams, full: Full, v: nat)
    requires A4lOk(a) && StatusAddresses(q.status) && VersionStates(a) && l.config[CONFIG_MRT_VERSION] == v
    ensures Acks(a, q, full, A4lStep(a, l, q, full), v)
  {
    hide A4lStep, Acks, A4lOk, StatusAddresses, VersionStates;
    if Leaves(a) {
      LeaveAcks(a, l, q, full, v);
    } else {
      PassAcks(a, l, q, full, v);
    }
  }

  lemma PassBounds(a: A4l)
    requires A4lOk(a)
    ensures PassLeft(a) > 0 && (!a.fsm.StatusUpdate? && !a.fsm.WaitForSubFsms? ==> PassLeft(a) >= 9)
    ensures VersionStagesLeft(a.mb) <= 3
  {
  }

  /** A call of the status memory that changes no word announces none. */
  lemma CalmMemory(m: Memory, q: Streams, i: MemoryInput)
    requires m.index < WORDS && m.old_ == m.status && MemoryStep(m, q, i).0.status == m.status
    ensures var r := MemoryStep(m, q, i); r.0.old_ == r.0.status && r.1.status == q.status
  {
    hide Refreshed;
  }

  lemma AckStep(s: Sys, x: Action)
    requires SysOk(s) && Allowed(s, x) && Unchanging(x) && Published(s) && Announced(s) && VersionStates(s.a)
    requires Next(s, x).m.status == s.m.status
    ensures var r, v := Next(s, x), s.f.version;
            && r.f.version == v && Published(r) && Announced(r) && VersionStates(r.a)
            && var m, n := AckLeft(s.a, |s.q.status|, v), AckLeft(r.a, |r.q.status|, v);
            n <= m && (Roomy(x) && m > 0 ==> n < m)
  {
    hide AckLeft, InPipe, InConfig, A4lOk, StatusAddresses, PassLeft;
    match x
    case A4lCall(full) =>
      CallAcks(s.a, s.l, s.q, full, s.f.version);
      OthersKeepConfig(s, x);
      KeepsVersionStates(s, full);
      hide A4lStep;
    case FmcCall(elapsed) =>
      FmcWrites(s, elapsed);
      CorePublishes(s, elapsed);
      hide FmcStep;
    case MemoryCall(i) =>
      CalmMemory(s.m, s.q, i);
      hide MemoryStep;
    case _ =>
  }

  lemma KeepsVersionStates(s: Sys, full: Full)
    requires SysOk(s) && VersionStates(s.a)
    ensures VersionStates(Next(s, A4lCall(full)).a)
  {
    SubsAdvance(MainNext(s).a, MainNext(s).q, full);
    hide SubSteps;
  }

  lemma {:induction false} AcknowledgesInTime(s: Sys, xs: seq<Action>)
    requires SysOk(s) && AllAllowed(s, xs) && AllUnchanging(xs) && Calm(s, xs)
    requires Published(s) && Announced(s) && VersionStates(s.a)
    requires RoomyCalls(xs) >= AckLeft(s.a, |s.q.status|, s.f.version)
    ensures var r := Run(s, xs); Acknowledged(r.a, s.f.version) && Published(r) && r.f.version == s.f.version
    decreases |xs|
  {
    hide Next, Allowed, Published, Announced, VersionStates, AckLeft, Unchanging, AllUnchanging, Roomy, Acknowledged;
    if xs == [] {
      AckDone(s.a, |s.q.status|, s.f.version);
    } else {
      UnchangingRest(xs);
      AckStep(s, xs[0]);
      AcknowledgesInTime(Next(s, xs[0]), xs[1..]);
    }
  }

  // ---- The status memory takes the version ----

  function LastOf(q: seq<nat>, d: nat): nat {
    if q == [] then d else q[|q| - 1]
  }

  /** When no broadcast is going on, the last version on its way to the status memory is the acknowledged one. */
  ghost predicate VersionFlows(s: Sys) {
    s.a.mb.CbWait? ==> LastOf(s.q.version1, s.m.status[STATUS_MRT_VERSION]) == s.a.processed
  }

  lemma MemoryFlows(m: Memory, q: Streams, i: MemoryInput)
    requires m.index < WORDS
    ensures var r := MemoryStep(m, q, i);
            LastOf(r.1.version1, r.0.status[STATUS_MRT_VERSION]) == LastOf(q.version1, m.status[STATUS_MRT_VERSION])
  {
  }

  lemma A4lFlows(a: A4l, l: Link, q: Streams, full: Full, d: nat)
    requires A4lOk(a) && StatusAddresses(q.status) && (a.mb.CbWait? ==> LastOf(q.version1, d) == a.processed)
    ensures var r := A4lStep(a, l, q, full); r.0.mb.CbWait? ==> LastOf(r.2.version1, d) == r.0.processed
  {
    var n := MainStep(a, l, q);
    BroadcastIsInert(n.0, n.2, full);
    hide BroadcastStep, StatusAddresses, Propagation;
  }

  lemma FlowsKept(s: Sys, x: Action)
    requires SysOk(s) && Allowed(s, x) && VersionFlows(s)
    ensures VersionFlows(Next(s, x))
  {
    hide InPipe, InConfig, LastOf;
    match x
    case A4lCall(full) =>
      A4lFlows(s.a, s.l, s.q, full, s.m.status[STATUS_MRT_VERSION]);
      hide A4lStep;
    case FmcCall(elapsed) =>
      FmcWrites(s, elapsed);
      hide FmcStep;
    case MemoryCall(i) =>
      MemoryFlows(s.m, s.q, i);
      hide MemoryStep;
    case _ =>
  }

  lemma {:induction false} FlowsAlways(s: Sys, xs: seq<Action>)
    requires SysOk(s) && AllAllowed(s, xs) && VersionFlows(s)
    ensures VersionFlows(Run(s, xs))
    decreases |xs|
  {
    hide Next, InPipe, InConfig, VersionFlows;
    if xs != [] {
      FlowsKept(s, xs[0]);
      FlowsAlways(Next(s, xs[0]), xs[1..]);
    }
  }

  /** A call of the status memory outside its reset, or one of a process other than the copier. */
  predicate Consumes(x: Action) {
    Unchanging(x) && !x.A4lCall? && (x.MemoryCall? ==> !x.i.resetting)
  }

  ghost predicate AllConsume(xs: seq<Action>) {
    forall x <- xs :: Consumes(x)
  }

  lemma ConsumeRest(xs: seq<Action>)
    requires AllConsume(xs) && xs != []
    ensures Consumes(xs[0]) && AllConsume(xs[1..])
  {
    assert xs[0] in xs && forall x <- xs[1..] :: x in xs;
  }

  function InputsLeft(q: Streams): nat {
    |q.statusProc| + |q.version1|
  }

  lemma ConsumeStep(s: Sys, x: Action)
    requires SysOk(s) && Allowed(s, x) && Consumes(x) && Published(s)
    ensures var r := Next(s, x);
            && r.a == s.a && r.f.version == s.f.version && Published(r) && InputsLeft(r.q) <= InputsLeft(s.q)
            && (x.MemoryCall? && InputsLeft(s.q) > 0 ==> InputsLeft(r.q) < InputsLeft(s.q))
  {
    hide InPipe, InConfig, Scan;
    match x
    case FmcCall(elapsed) =>
      FmcWrites(s, elapsed);
      CorePublishes(s, elapsed);
      hide FmcStep;
    case MemoryCall(i) => ScanKeepsInputs(s.m, s.q, i.statusFull);
    case _ =>
  }

  lemma ScanKeepsInputs(m: Memory, q: Streams, full: bool)
    requires m.index < WORDS
    ensures var r := Scan(m, q, full).1; r.statusProc == q.statusProc && r.version1 == q.version1
  {
    hide Refreshed;
  }

  lemma {:induction false} ConsumesInTime(s: Sys, xs: seq<Action>)
    requires SysOk(s) && AllAllowed(s, xs) && AllConsume(xs) && Published(s) && ScansIn(xs) >= InputsLeft(s.q)
    ensures var r := Run(s, xs);
            r.a == s.a && r.f.version == s.f.version && Published(r) && InputsLeft(r.q) == 0
    decreases |xs|
  {
    hide Next, InPipe, InConfig, Published, AllConsume, InputsLeft;
    if xs != [] {
      ConsumeRest(xs);
      ConsumeStep(s, xs[0]);
      ConsumesInTime(Next(s, xs[0]), xs[1..]);
    }
  }

  // ---- The version is held ----

  /** The version is acknowledged and in the status memory, and no other is on its way to it. */
  ghost predicate Held(s: Sys) {
    Published(s) && Acknowledged(s.a, s.f.version) && s.q.version1 == []
        && s.m.status[STATUS_MRT_VERSION] == s.f.version
  }

  lemma A4lHolds(a: A4l, l: Link, q: Streams, full: Full, v: nat)
    requires A4lOk(a) && StatusAddresses(q.status) && l.config[CONFIG_MRT_VERSION] == v && Acknowledged(a, v)
             && q.version1 == []
    ensures var r := A4lStep(a, l, q, full); Acknowledged(r.0, v) && r.2.version1 == []
  {
    var n := MainStep(a, l, q);
    BroadcastIsInert(n.0, n.2, full);
    hide BroadcastStep, StatusAddresses, Propagation;
  }

  lemma MemoryHolds(m: Memory, q: Streams, i: MemoryInput)
    requires m.index < WORDS && q.version1 == []
    ensures var r := MemoryStep(m, q, i);
            r.1.version1 == [] && r.0.status[STATUS_MRT_VERSION] == m.status[STATUS_MRT_VERSION]
  {
  }

  lemma HeldKept(s: Sys, x: Action)
    requires SysOk(s) && Allowed(s, x) && Unchanging(x) && Held(s)
    ensures Held(Next(s, x)) && Next(s, x).f.version == s.f.version
  {
    hide InPipe, InConfig, Acknowledged;
    match x
    case A4lCall(full) =>
      A4lHolds(s.a, s.l, s.q, full, s.f.version);
      OthersKeepConfig(s, x);
      hide A4lStep;
    case FmcCall(elapsed) =>
      FmcWrites(s, elapsed);
      CorePublishes(s, elapsed);
      hide FmcStep;
    case MemoryCall(i) =>
      MemoryHolds(s.m, s.q, i);
      hide MemoryStep;
    case _ =>
  }

  lemma {:induction false} HeldAlways(s: Sys, xs: seq<Action>)
    requires SysOk(s) && AllAllowed(s, xs) && AllUnchanging(xs) && Held(s)
    ensures Held(Run(s, xs)) && Run(s, xs).f.version == s.f.version
    decreases |xs|
  {
    hide Next, Allowed, Held, Unchanging, AllUnchanging;
    if xs != [] {
      UnchangingRest(xs);
      HeldKept(s, xs[0]);
      HeldAlways(Next(s, xs[0]), xs[1..]);
    }
  }

  // ---- The core reads it back ----

  ghost predicate ReadBack(f: Fmc) {
    f.nalStatus[STATUS_MRT_VERSION] == f.version
  }

  /** Calls of the core with the check interval passed until it has read the first status word again. */
  function ReadLeft(f: Fmc): (n: nat)
    requires FmcOk(f)
    ensures 0 < n <= 115
  {
    var c, m := if f.needConfig then 3 else 0, if f.needMrt then 70 else 0;
    match f.fsm
    case LinkWait => 2 + m + c
    case LinkIdle => 3 + m + c
    case UpdateConfig => 4 + m
    case UpdateMrt => 4 + c + (f.maxNode - f.copyIndex)
    case UpdateSavedState => 77
    case UpdateState => if f.requestCnt == 0 then 1 else 100 + (WORDS - f.requestCnt)
  }

  lemma CoreReads(s: Sys, elapsed: bool)
    requires SysOk(s) && s.l.status[STATUS_MRT_VERSION] == s.f.version
    ensures var r := Next(s, FmcCall(elapsed));
            && r.f.version == s.f.version && (ReadBack(s.f) ==> ReadBack(r.f))
            && (!ReadBack(r.f) ==> ReadLeft(r.f) <= ReadLeft(s.f) && (elapsed ==> ReadLeft(r.f) < ReadLeft(s.f)))
  {
  }

  lemma {:induction false} ReadsInTime(s: Sys, xs: seq<Action>)
    requires Inv(s) && AllAllowed(s, xs) && AllUnchanging(xs) && Calm(s, xs)
    requires Held(s) && Shown(s) && Announced(s) && VersionStates(s.a)
    requires ReadBack(s.f) || CoreCallsIn(xs, true) >= ReadLeft(s.f)
    ensures ReadBack(Run(s, xs).f) && Run(s, xs).f.version == s.f.version
    decreases |xs|
  {
    hide Next, Allowed, Handover, AgencyFollows, StatusFollows, VersionStates, Shown, Announced, Held, ReadBack,
      ReadLeft,
      Unchanging, AllUnchanging, CallsLeft;
    if xs != [] {
      UnchangingRest(xs);
      ReadStep(s, xs[0]);
      StepKeeps(s, xs[0]);
      ReadsInTime(Next(s, xs[0]), xs[1..]);
    }
  }

  lemma ReadStep(s: Sys, x: Action)
    requires Inv(s) && Allowed(s, x) && Unchanging(x) && Next(s, x).m.status == s.m.status
    requires Held(s) && Shown(s) && Announced(s) && VersionStates(s.a)
    ensures var r := Next(s, x);
            && Held(r) && Shown(r) && Announced(r) && VersionStates(r.a) && r.f.version == s.f.version
            && (ReadBack(s.f) ==> ReadBack(r.f))
            && (!ReadBack(r.f) ==> ReadLeft(r.f) + (if x.FmcCall? && x.elapsed then 1 else 0) <= ReadLeft(s.f))
  {
    StepAdvances(s, x);
    HeldKept(s, x);
    ShownMeans(s);
    ShownMeans(Next(s, x));
    if x.FmcCall? {
      CoreReads(s, x.elapsed);
    } else {
      OthersKeepConfig(s, x);
    }
    hide Next, Handover, AgencyFollows, StatusFollows, VersionStates, Shown, Announced, Acknowledged, ReadLeft,
      CallsLeft;
  }

  lemma ShownMeans(s: Sys)
    requires A4lOk(s.a)
    ensures (Shown(s) <==> CallsLeft(s) == 0) && (Shown(s) ==> s.l.status == s.m.status)
  {
  }

  // ---- From the change to the read-back ----

  /** Schedules in a row. In each, the named calls happen often enough; any other calls may lie between them, as far as
      `Enough` allows. */
  datatype Phases = Phases(publish: seq<Action>, announce: seq<Action>, copy: seq<Action>, take: seq<Action>,
                           announceAgain: seq<Action>, show: seq<Action>, read: seq<Action>)

  ghost predicate Scans16(s: Sys, xs: seq<Action>)
    requires SysOk(s)
  {
    AllAllowed(s, xs) && AllUnchanging(xs) && Scanning(s, xs) && ScansIn(xs) >= WORDS
  }

  ghost predicate CalmWithRoom(s: Sys, xs: seq<Action>, n: nat)
    requires SysOk(s)
  {
    AllAllowed(s, xs) && AllUnchanging(xs) && Calm(s, xs) && RoomyCalls(xs) >= n
  }

  ghost predicate TakesAll(s: Sys, xs: seq<Action>)
    requires SysOk(s)
  {
    AllAllowed(s, xs) && AllConsume(xs) && ScansIn(xs) >= InputsLeft(s.q)
  }

  /** Core calls that publish; sixteen scans; calls of the copier with room; calls of the status memory that take its
      inputs; sixteen scans; calls of the copier with room; core calls with the check interval passed. */
  ghost predicate Enough(s: Sys, p: Phases)
    requires SysOk(s)
  {
    && AllAllowed(s, p.publish) && AllUnchanging(p.publish) && CoreCallsIn(p.publish, false) >= 88
    && EnoughPublished(Run(s, p.publish), p)
  }

  ghost predicate EnoughPublished(s: Sys, p: Phases)
    requires SysOk(s)
  {
    Scans16(s, p.announce) && EnoughAnnounced(Run(s, p.announce), p)
  }

  ghost predicate EnoughAnnounced(s: Sys, p: Phases)
    requires SysOk(s)
  {
    CalmWithRoom(s, p.copy, 2 * |s.q.status| + 647) && EnoughCopied(Run(s, p.copy), p)
  }

  ghost predicate EnoughCopied(s: Sys, p: Phases)
    requires SysOk(s)
  {
    TakesAll(s, p.take) && EnoughTaken(Run(s, p.take), p)
  }

  ghost predicate EnoughTaken(s: Sys, p: Phases)
    requires SysOk(s)
  {
    Scans16(s, p.announceAgain) && EnoughShown(Run(s, p.announceAgain), p)
  }

  ghost predicate EnoughShown(s: Sys, p: Phases)
    requires SysOk(s)
  {
    && CalmWithRoom(s, p.show, |s.q.status| + 397) && CalmWithRoom(Run(s, p.show), p.read, 0)
    && CoreCallsIn(p.read, true) >= 115
  }

  function AfterPhases(s: Sys, p: Phases): Sys
    requires SysOk(s) && Enough(s, p)
  {
    Run(Run(Run(Run(Run(Run(Run(s, p.publish), p.announce), p.copy), p.take), p.announceAgain), p.show), p.read)
  }

  /** Invariants of the joint system that the progress needs. */
  ghost predicate Sound(s: Sys) {
    Inv(s) && VersionStates(s.a) && VersionFlows(s)
  }

  lemma SoundAlways(s: Sys, xs: seq<Action>)
    requires Sound(s) && AllAllowed(s, xs)
    ensures Sound(Run(s, xs))
  {
    hide Handover, AgencyFollows, StatusFollows, VersionStates, VersionFlows, Run, AllAllowed;
    RunKeeps(s, xs);
    VersionStatesAlways(s, xs);
    FlowsAlways(s, xs);
  }

  lemma ScansAnnounce(s: Sys, xs: seq<Action>)
    requires SysOk(s) && Scans16(s, xs)
    ensures Announced(Run(s, xs))
  {
    ScansInterleave(s, xs);
    ManyScansSettle(s.m, s.q, ScansIn(xs));
    hide *;
    AnnouncedIs(Run(s, xs));
  }

  lemma AnnouncedIs(s: Sys)
    ensures Announced(s) <==> s.m.old_ == s.m.status
  {
  }

  /** From a request to the acknowledgement in the status memory. */
  lemma FirstHalf(s: Sys, p: Phases)
    requires Sound(s) && s.f.needMrt && Enough(s, p)
    ensures var s4 := Run(Run(Run(Run(s, p.publish), p.announce), p.copy), p.take);
            Sound(s4) && Held(s4) && s4.f.version == s.f.version
  {
    hide Inv, Handover, AgencyFollows, StatusFollows, VersionStates, VersionFlows, Run, AllAllowed, AllUnchanging, Calm,
      Scanning, Published, Announced, PublishLeft, AckLeft, Acknowledged, AllConsume, InputsLeft, ScansIn,
      RoomyCalls, CoreCallsIn, Held, Sound;
    SoundIs(s);
    PublishesInTime(s, p.publish);
    var s1 := Run(s, p.publish);
    SoundAlways(s, p.publish);
    SoundIs(s1);
    ScansKeep(s1, p.announce);
    var s2 := Run(s1, p.announce);
    SoundAlways(s1, p.announce);
    SoundIs(s2);
    AcknowledgesInTime(s2, p.copy);
    var s3 := Run(s2, p.copy);
    SoundAlways(s2, p.copy);
    SoundIs(s3);
    ConsumesInTime(s3, p.take);
    SoundAlways(s3, p.take);
    SoundIs(Run(s3, p.take));
    HeldIs(Run(s3, p.take));
  }

  lemma SoundIs(s: Sys)
    requires Sound(s)
    ensures SysOk(s) && Inv(s) && VersionStates(s.a) && VersionFlows(s)
  {
    hide Handover, AgencyFollows, StatusFollows, VersionStates, VersionFlows;
  }

  lemma ScansKeep(s: Sys, xs: seq<Action>)
    requires SysOk(s) && Scans16(s, xs) && Published(s)
    ensures Announced(Run(s, xs)) && Published(Run(s, xs)) && Run(s, xs).f.version == s.f.version
  {
    ScansAnnounce(s, xs);
    hide Published, Announced, Scanning, ScansIn, Run, AllAllowed, AllUnchanging;
    PublishesInTime(s, xs);
  }

  lemma HeldIs(s: Sys)
    requires Published(s) && Acknowledged(s.a, s.f.version) && VersionFlows(s) && InputsLeft(s.q) == 0
    ensures Held(s)
  {
  }

  /** From there to the link and back to the core. */
  lemma SecondHalf(s: Sys, again: seq<Action>, show: seq<Action>, read: seq<Action>)
    requires Sound(s) && Held(s) && Scans16(s, again)
    requires var s5 := Run(s, again);
             CalmWithRoom(s5, show, |s5.q.status| + 397)
             && CalmWithRoom(Run(s5, show), read, 0) && CoreCallsIn(read, true) >= 115
    ensures var r := Run(Run(Run(s, again), show), read); ReadBack(r.f) && r.f.version == s.f.version
  {
    hide Inv, Handover, AgencyFollows, StatusFollows, VersionStates, VersionFlows, Run, AllAllowed, AllUnchanging, Calm,
      Scanning, Announced, Acknowledged, ScansIn, RoomyCalls, CoreCallsIn, Held, Sound, Shown, CallsLeft, ReadBack,
          ReadLeft;
    SoundIs(s);
    ScansAnnounce(s, again);
    HeldAlways(s, again);
    var s5 := Run(s, again);
    SoundAlways(s, again);
    SoundIs(s5);
    CalmSettles(s5, show);
    HeldAlways(s5, show);
    var s6 := Run(s5, show);
    SoundAlways(s5, show);
    SoundIs(s6);
    ReadsInTime(s6, read);
  }

  /** After any allowed run from power-up that leaves the core with a table to hand over: such schedules end with the
      core reading back its version, and so, by `NalHandover.ReadBackMeansHandedOver`, with the table handed over. */
  lemma HandoverReturns(s0: Sys, xs: seq<Action>, p: Phases)
    requires PowerUp(s0) && Zeroed(s0) && s0.a.mb.CbWait? && AllAllowed(s0, xs) && Run(s0, xs).f.needMrt
    requires Enough(Run(s0, xs), p)
    ensures var r := AfterPhases(Run(s0, xs), p).f; ReadBack(r) && r.version == Run(s0, xs).f.version
  {
    StartKeeps(s0);
    StartSound(s0);
    hide Sound, Run, AllAllowed, AllUnchanging, Calm, Scanning, Inv, PowerUp, Zeroed, ReadBack, Held, CoreCallsIn,
      RoomyCalls;
    SoundAlways(s0, xs);
    var s := Run(s0, xs);
    FirstHalf(s, p);
    var s4 := Run(Run(Run(Run(s, p.publish), p.announce), p.copy), p.take);
    SecondHalf(s4, p.announceAgain, p.show, p.read);
  }

  lemma StartSound(s: Sys)
    requires PowerUp(s) && Zeroed(s) && s.a.mb.CbWait? && Inv(s)
    ensures Sound(s)
  {
    hide Handover, AgencyFollows, StatusFollows;
  }
}
