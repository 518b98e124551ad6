/** Progress of a rank: after a change of the rank, the schedules of `NalProgress` end with the core reading the new
    rank back from the status memory. */
module NalRank {
  import opened NalLink
  import opened NalStatus
  import opened NalHandover
  import opened NalSettles
  import opened NalProgress
  import opened NalBroadcast

  // ---- The core publishes ----

  ghost predicate RankPublished(s: Sys) {
    s.l.config[0] == s.f.rank
  }

  /** Calls of the core until it has written the configuration words, when it has been asked to. */
  function RankPublishLeft(f: Fmc): (n: nat)
    requires FmcOk(f)
    ensures n <= 88
  {
    match f.fsm
    case UpdateConfig => 1
    case LinkWait => 2
    case LinkIdle => 3
    case UpdateSavedState => 4
    case UpdateState => 5 + (WORDS - f.requestCnt)
    case UpdateMrt => 4 + (f.maxNode - f.copyIndex)
  }

  lemma CorePublishesRank(s: Sys, elapsed: bool)
    requires SysOk(s) && (s.f.needConfig || RankPublished(s))
    ensures var r := Next(s, FmcCall(elapsed));
            && r.f.rank == s.f.rank && (RankPublished(s) ==> RankPublished(r))
            && (!RankPublished(r) ==> r.f.needConfig && RankPublishLeft(r.f) < RankPublishLeft(s.f))
  {
  }

  lemma RankPublishStep(s: Sys, x: Action)
    requires SysOk(s) && Allowed(s, x) && Unchanging(x) && (s.f.needConfig || RankPublished(s))
    ensures var r := Next(s, x);
            && r.f.rank == s.f.rank && (RankPublished(s) ==> RankPublished(r))
            && (!RankPublished(r) ==>
                  r.f.needConfig && RankPublishLeft(r.f) + (if x.FmcCall? then 1 else 0) <= RankPublishLeft(s.f))
  {
    hide Next, RankPublishLeft;
    match x
    case FmcCall(elapsed) => CorePublishesRank(s, elapsed);
    case _ => OthersKeepConfig(s, x);
  }

  lemma RankLeftToPublish(s: Sys)
    requires SysOk(s)
    ensures RankPublishLeft(s.f) > 0
  {
  }

  lemma {:induction false} PublishesRank(s: Sys, xs: seq<Action>)
    requires SysOk(s) && AllAllowed(s, xs) && AllUnchanging(xs) && (s.f.needConfig || RankPublished(s))
    requires RankPublished(s) || CoreCallsIn(xs, false) >= RankPublishLeft(s.f)
    ensures RankPublished(Run(s, xs)) && Run(s, xs).f.rank == s.f.rank
    decreases |xs|
  {
    hide Next, Allowed, RankPublished, RankPublishLeft, Unchanging, AllUnchanging;
    if xs == [] {
      RankLeftToPublish(s);
    } else {
      UnchangingRest(xs);
      RankPublishStep(s, xs[0]);
      PublishesRank(Next(s, xs[0]), xs[1..]);
    }
  }

  // ---- The copier stores ----

  /** The copier has stored the rank and no other is on its way. */
  ghost predicate RankStored(a: A4l, v: nat) {
    a.config[0] == v && !(a.fsm.CopyConfig2? && a.index == 0)
  }

  /** The copier comes to the rank in this pass. */
  ghost predicate RankBefore(a: A4l, v: nat) {
    a.index == 0 && (a.fsm.CopyConfig? || (a.fsm.CopyConfig2? && a.newWord == v))
  }

  /** Calls with room until the rank is stored, with `q` status updates queued. */
  ghost function StoreLeft(a: A4l, q: nat, v: nat): (n: nat)
    requires A4lOk(a)
    ensures (n == 0 <==> RankStored(a, v)) && n <= 2 * q + 647
  {
    if RankStored(a, v) then 0
    else if a.fsm.StatusUpdate? then q + 210
    else if RankBefore(a, v) then PassLeft(a)
    else q + 210 + PassLeft(a)
  }

  /** What a call does to the calls left. */
  ghost predicate Stores(a: A4l, q: Streams, full: Full, r: (A4l, Link, Streams), v: nat)
    requires A4lOk(a)
  {
    A4lOk(r.0) && var m, n := StoreLeft(a, |q.status|, v), StoreLeft(r.0, |r.2.status|, v);
    n <= m && (HasRoom(full) && m > 0 ==> n < m)
  }

  lemma ReadStores(a: A4l, l: Link, q: Streams, full: Full, v: nat)
    requires A4lOk(a) && StatusAddresses(q.status) && VersionStates(a) && l.config[0] == v && a.fsm.CopyConfig?
    ensures Stores(a, q, full, A4lStep(a, l, q, full), v)
  {
    PassAdvances(a, l, q, full);
    var n := MainStep(a, l, q);
    SubsInert(n.0, n.2, full);
    hide SubSteps, HasRoom, StatusAddresses, Propagation, PassLeft, StagesLeft, VersionStagesLeft;
  }

  lemma WordStores(a: A4l, l: Link, q: Streams, full: Full, v: nat)
    requires A4lOk(a) && StatusAddresses(q.status) && VersionStates(a) && l.config[0] == v && a.fsm.CopyConfig2?
    ensures Stores(a, q, full, A4lStep(a, l, q, full), v)
  {
    PassAdvances(a, l, q, full);
    var n := MainStep(a, l, q);
    SubsInert(n.0, n.2, full);
    hide SubSteps, HasRoom, StatusAddresses, Propagation, PassLeft, StagesLeft, VersionStagesLeft;
  }

  lemma PassStores(a: A4l, l: Link, q: Streams, full: Full, v: nat)
    requires A4lOk(a) && StatusAddresses(q.status) && VersionStates(a) && l.config[0] == v && !Leaves(a)
    requires !a.fsm.CopyConfig? && !a.fsm.CopyConfig2?
    ensures Stores(a, q, full, A4lStep(a, l, q, full), v)
  {
    PassAdvances(a, l, q, full);
    var n := MainStep(a, l, q);
    SubsInert(n.0, n.2, full);
    hide SubSteps, HasRoom, StatusAddresses, Propagation, PassLeft, StagesLeft, VersionStagesLeft;
  }

  lemma LeaveStores(a: A4l, l: Link, q: Streams, full: Full, v: nat)
    requires A4lOk(a) && StatusAddresses(q.status) && VersionStates(a) && l.config[0] == v && Leaves(a)
    ensures Stores(a, q, full, A4lStep(a, l, q, full), v)
  {
    var n := MainStep(a, l, q);
    SubsInert(n.0, n.2, full);
    SubsAdvance(n.0, n.2, full);
    hide SubSteps, HasRoom, StatusAddresses, StagesLeft;
  }

  lemma CallStores(a: A4l, l: Link, q: Streams, full: Full, v: nat)
    requires A4lOk(a) && StatusAddresses(q.status) && VersionStates(a) && l.config[0] == v
    ensures Stores(a, q, full, A4lStep(a, l, q, full), v)
  {
    hide A4lStep, Stores, A4lOk, StatusAddresses, VersionStates, Leaves;
    if Leaves(a) {
      LeaveStores(a, l, q, full, v);
    } else if a.fsm.CopyConfig? {
      ReadStores(a, l, q, full, v);
    } else if a.fsm.CopyConfig2? {
      WordStores(a, l, q, full, v);
    } else {
      PassStores(a, l, q, full, v);
    }
  }

  lemma StoreStep(s: Sys, x: Action)
    requires SysOk(s) && Allowed(s, x) && Unchanging(x) && RankPublished(s) && Announced(s) && VersionStates(s.a)
    requires Next(s, x).m.status == s.m.status
    ensures var r, v := Next(s, x), s.f.rank;
            && r.f.rank == v && RankPublished(r) && Announced(r) && VersionStates(r.a)
            && var m, n := StoreLeft(s.a, |s.q.status|, v), StoreLeft(r.a, |r.q.status|, v);
            n <= m && (Roomy(x) && m > 0 ==> n < m)
  {
    hide StoreLeft, InPipe, InConfig, A4lOk, StatusAddresses, PassLeft;
    match x
    case A4lCall(full) =>
      CallStores(s.a, s.l, s.q, full, s.f.rank);
      OthersKeepConfig(s, x);
      KeepsVersionStates(s, full);
      hide A4lStep;
    case FmcCall(elapsed) =>
      FmcWrites(s, elapsed);
      CorePublishesRank(s, elapsed);
      hide FmcStep;
    case MemoryCall(i) =>
      CalmMemory(s.m, s.q, i);
      hide MemoryStep;
    case _ =>
  }

  lemma {:induction false} StoresRank(s: Sys, xs: seq<Action>)
    requires SysOk(s) && AllAllowed(s, xs) && AllUnchanging(xs) && Calm(s, xs)
    requires RankPublished(s) && Announced(s) && VersionStates(s.a)
    requires RoomyCalls(xs) >= StoreLeft(s.a, |s.q.status|, s.f.rank)
    ensures var r := Run(s, xs); RankStored(r.a, s.f.rank) && RankPublished(r) && r.f.rank == s.f.rank
    decreases |xs|
  {
    hide Next, Allowed, RankPublished, Announced, VersionStates, Unchanging, AllUnchanging, Roomy, RankBefore, PassLeft;
    if xs != [] {
      UnchangingRest(xs);
      StoreStep(s, xs[0]);
      StoresRank(Next(s, xs[0]), xs[1..]);
    }
  }

  // ---- The status memory takes the rank ----

  /** The rank in the status memory when it has taken the updates `q`. */
  function RankAfter(q: seq<Update>, d: nat): nat {
    if q == [] then d else RankAfter(q[1..], if q[0].address == 0 then q[0].value else d)
  }

  lemma {:induction false} RankAfterMore(q: seq<Update>, u: Update, d: nat)
    ensures RankAfter(q + [u], d) == if u.address == 0 then u.value else RankAfter(q, d)
  {
    if q == [] {
      assert (q + [u])[1..] == [];
    } else {
      RankAfterMore(q[1..], u, if q[0].address == 0 then q[0].value else d);
      assert (q + [u])[1..] == q[1..] + [u];
    }
  }

  /** The rank that the copier has told: the one being stored once its broadcast is over, or the stored one. */
  function RankTold(a: A4l): nat {
    if a.fsm.CopyConfig2? && a.index == 0 && a.cb.CbWait? then a.newWord else a.config[0]
  }

  /** The rank told and the one in the status memory agree, up to the queued updates. */
  ghost predicate RankFlows(s: Sys) {
    Carries(s.a) && RankAfter(s.q.statusProc, s.m.status[STATUS_OWN_RANK]) == RankTold(s.a)
  }

  lemma MemoryFlowsRank(m: Memory, q: Streams, i: MemoryInput)
    requires m.index < WORDS
    ensures var r := MemoryStep(m, q, i);
            RankAfter(r.1.statusProc, r.0.status[STATUS_OWN_RANK]) == RankAfter(q.statusProc, m.status[STATUS_OWN_RANK])
  {
  }

  lemma BroadcastFlowsRank(a: A4l, q: Streams, full: Full, d: nat)
    requires Carries(a) && RankAfter(q.statusProc, d) == RankTold(a)
    ensures var r := BroadcastStep(a, q, full); RankAfter(r.1.statusProc, d) == RankTold(r.0)
  {
    RankAfterMore(q.statusProc, a.update, d);
    hide RankAfter;
  }

  lemma A4lFlowsRank(a: A4l, l: Link, q: Streams, full: Full, d: nat)
    requires A4lOk(a) && StatusAddresses(q.status) && Carries(a) && RankAfter(q.statusProc, d) == RankTold(a)
    ensures var r := A4lStep(a, l, q, full); RankAfter(r.2.statusProc, d) == RankTold(r.0)
  {
    MainCarries(a, l, q);
    MainFlowsRank(a, l, q);
    var n := MainStep(a, l, q);
    BroadcastFlowsRank(n.0, n.2, full, d);
    var b := BroadcastStep(n.0, n.2, full);
    VersionTellsNone(b.0, b.1, full, StatusProcess);
    VersionIsInert(b.0, b.1, full);
    hide MainStep, BroadcastStep, VersionStep, StatusAddresses, Carries, RankAfter;
  }

  lemma MainFlowsRank(a: A4l, l: Link, q: Streams)
    requires A4lOk(a) && StatusAddresses(q.status) && Carries(a)
    ensures var n := MainStep(a, l, q); n.2.statusProc == q.statusProc && RankTold(n.0) == RankTold(a)
  {
    hide Propagation;
  }

  lemma RankFlowsKept(s: Sys, x: Action)
    requires SysOk(s) && Allowed(s, x) && RankFlows(s)
    ensures RankFlows(Next(s, x))
  {
    hide InPipe, InConfig, RankAfter, RankTold, Carries;
    CarriesKept(s, x);
    match x
    case A4lCall(full) =>
      A4lFlowsRank(s.a, s.l, s.q, full, s.m.status[STATUS_OWN_RANK]);
      hide A4lStep;
    case FmcCall(elapsed) =>
      FmcWrites(s, elapsed);
      hide FmcStep;
    case MemoryCall(i) =>
      MemoryFlowsRank(s.m, s.q, i);
      hide MemoryStep;
    case _ =>
  }

  lemma {:induction false} RankFlowsAlways(s: Sys, xs: seq<Action>)
    requires SysOk(s) && AllAllowed(s, xs) && RankFlows(s)
    ensures RankFlows(Run(s, xs))
    decreases |xs|
  {
    hide Next, InPipe, InConfig, RankFlows;
    if xs != [] {
      RankFlowsKept(s, xs[0]);
      RankFlowsAlways(Next(s, xs[0]), xs[1..]);
    }
  }

  lemma TakeStep(s: Sys, x: Action)
    requires SysOk(s) && Allowed(s, x) && Consumes(x) && RankPublished(s)
    ensures var r := Next(s, x);
            && r.a == s.a && r.f.rank == s.f.rank && RankPublished(r) && InputsLeft(r.q) <= InputsLeft(s.q)
            && (x.MemoryCall? && InputsLeft(s.q) > 0 ==> InputsLeft(r.q) < InputsLeft(s.q))
  {
    hide InPipe, InConfig, Scan;
    match x
    case FmcCall(elapsed) =>
      FmcWrites(s, elapsed);
      CorePublishesRank(s, elapsed);
      hide FmcStep;
    case MemoryCall(i) => ScanKeepsInputs(s.m, s.q, i.statusFull);
    case _ =>
  }

  lemma {:induction false} TakesRank(s: Sys, xs: seq<Action>)
    requires SysOk(s) && AllAllowed(s, xs) && AllConsume(xs) && RankPublished(s) && ScansIn(xs) >= InputsLeft(s.q)
    ensures var r := Run(s, xs); r.a == s.a && r.f.rank == s.f.rank && RankPublished(r) && InputsLeft(r.q) == 0
    decreases |xs|
  {
    hide Next, InPipe, InConfig, RankPublished, AllConsume, InputsLeft;
    if xs != [] {
      ConsumeRest(xs);
      TakeStep(s, xs[0]);
      TakesRank(Next(s, xs[0]), xs[1..]);
    }
  }

  // ---- The rank is held ----

  /** The rank is stored and in the status memory, and no other is on its way to it. */
  ghost predicate RankHeld(s: Sys) {
    RankPublished(s) && RankStored(s.a, s.f.rank) && RankFlows(s) && s.m.status[STATUS_OWN_RANK] == s.f.rank
        && s.q.statusProc == []
  }

  lemma A4lHoldsRank(a: A4l, l: Link, q: Streams, full: Full, v: nat)
    requires A4lOk(a) && StatusAddresses(q.status) && l.config[0] == v && RankStored(a, v) && Carries(a)
    ensures var r := A4lStep(a, l, q, full); RankStored(r.0, v) && r.2.statusProc == q.statusProc
  {
    var n := MainStep(a, l, q);
    MainCarries(a, l, q);
    MainFlowsRank(a, l, q);
    var b := BroadcastStep(n.0, n.2, full);
    VersionTellsNone(b.0, b.1, full, StatusProcess);
    SubsInert(n.0, n.2, full);
    hide VersionStep, StatusAddresses, Propagation, RankTold;
  }

  lemma MemoryHoldsRank(m: Memory, q: Streams, i: MemoryInput)
    requires m.index < WORDS && q.statusProc == []
    ensures var r := MemoryStep(m, q, i);
            r.1.statusProc == [] && r.0.status[STATUS_OWN_RANK] == m.status[STATUS_OWN_RANK]
  {
  }

  lemma RankHeldKept(s: Sys, x: Action)
    requires SysOk(s) && Allowed(s, x) && Unchanging(x) && RankHeld(s)
    ensures RankHeld(Next(s, x)) && Next(s, x).f.rank == s.f.rank
  {
    RankFlowsKept(s, x);
    hide InPipe, InConfig, RankStored, RankAfter, Carries, RankTold;
    match x
    case A4lCall(full) =>
      A4lHoldsRank(s.a, s.l, s.q, full, s.f.rank);
      OthersKeepConfig(s, x);
      hide A4lStep;
    case FmcCall(elapsed) =>
      FmcWrites(s, elapsed);
      CorePublishesRank(s, elapsed);
      hide FmcStep;
    case MemoryCall(i) =>
      MemoryHoldsRank(s.m, s.q, i);
      hide MemoryStep;
    case _ =>
  }

  lemma {:induction false} RankHeldAlways(s: Sys, xs: seq<Action>)
    requires SysOk(s) && AllAllowed(s, xs) && AllUnchanging(xs) && RankHeld(s)
    ensures RankHeld(Run(s, xs)) && Run(s, xs).f.rank == s.f.rank
    decreases |xs|
  {
    hide Next, Allowed, RankHeld, Unchanging, AllUnchanging;
    if xs != [] {
      UnchangingRest(xs);
      RankHeldKept(s, xs[0]);
      RankHeldAlways(Next(s, xs[0]), xs[1..]);
    }
  }

  // ---- The core reads it back ----

  ghost predicate RankReadBack(f: Fmc) {
    f.nalStatus[STATUS_OWN_RANK] == f.rank
  }

  /** Calls of the core with the check interval passed until it has read the rank word again. */
  function RankReadLeft(f: Fmc): (n: nat)
    requires FmcOk(f)
    ensures 0 < n <= 115
  {
    var c, m := if f.needConfig then 3 else 0, if f.needMrt then 70 else 0;
    match f.fsm
    case LinkWait => 15 + m + c
    case LinkIdle => 16 + m + c
    case UpdateConfig => 17 + m
    case UpdateMrt => 17 + c + (f.maxNode - f.copyIndex)
    case UpdateSavedState => 90
    case UpdateState => if f.requestCnt <= STATUS_OWN_RANK then 14 - f.requestCnt else 90 + (WORDS - f.requestCnt)
  }

  lemma CoreReadsRank(s: Sys, elapsed: bool)
    requires SysOk(s) && s.l.status[STATUS_OWN_RANK] == s.f.rank
    ensures var r := Next(s, FmcCall(elapsed));
            && r.f.rank == s.f.rank && (RankReadBack(s.f) ==> RankReadBack(r.f))
            && (!RankReadBack(r.f) ==>
                  RankReadLeft(r.f) <= RankReadLeft(s.f) && (elapsed ==> RankReadLeft(r.f) < RankReadLeft(s.f)))
  {
  }

  lemma RankReadStep(s: Sys, x: Action)
    requires Inv(s) && Allowed(s, x) && Unchanging(x) && Next(s, x).m.status == s.m.status
    requires RankHeld(s) && Shown(s) && Announced(s) && VersionStates(s.a)
    ensures var r := Next(s, x);
            && RankHeld(r) && Shown(r) && Announced(r) && VersionStates(r.a) && r.f.rank == s.f.rank
            && (RankReadBack(s.f) ==> RankReadBack(r.f))
            && (!RankReadBack(r.f) ==>
                  RankReadLeft(r.f) + (if x.FmcCall? && x.elapsed then 1 else 0) <= RankReadLeft(s.f))
  {
    StepAdvances(s, x);
    RankHeldKept(s, x);
    ShownMeans(s);
    ShownMeans(Next(s, x));
    if x.FmcCall? {
      CoreReadsRank(s, x.elapsed);
    } else {
      OthersKeepConfig(s, x);
    }
    hide Next, Handover, AgencyFollows, StatusFollows, VersionStates, Shown, Announced, RankStored, RankFlows,
      RankReadLeft, CallsLeft;
  }

  lemma {:induction false} ReadsRank(s: Sys, xs: seq<Action>)
    requires Inv(s) && AllAllowed(s, xs) && AllUnchanging(xs) && Calm(s, xs)
    requires RankHeld(s) && Shown(s) && Announced(s) && VersionStates(s.a)
    requires RankReadBack(s.f) || CoreCallsIn(xs, true) >= RankReadLeft(s.f)
    ensures RankReadBack(Run(s, xs).f) && Run(s, xs).f.rank == s.f.rank
    decreases |xs|
  {
    hide Next, Allowed, Handover, AgencyFollows, StatusFollows, VersionStates, Shown, Announced, RankHeld,
      RankReadBack, RankReadLeft, Unchanging, AllUnchanging, CallsLeft;
    if xs != [] {
      UnchangingRest(xs);
      RankReadStep(s, xs[0]);
      StepKeeps(s, xs[0]);
      ReadsRank(Next(s, xs[0]), xs[1..]);
    }
  }

  // ---- From the change to the read-back ----

  /** Invariants of the joint system that the rank needs. */
  ghost predicate RankSound(s: Sys) {
    Inv(s) && VersionStates(s.a) && RankFlows(s)
  }

  lemma RankSoundAlways(s: Sys, xs: seq<Action>)
    requires RankSound(s) && AllAllowed(s, xs)
    ensures RankSound(Run(s, xs))
  {
    hide Handover, AgencyFollows, StatusFollows, VersionStates, RankFlows, Run, AllAllowed;
    RunKeeps(s, xs);
    VersionStatesAlways(s, xs);
    RankFlowsAlways(s, xs);
  }

  lemma RankSoundIs(s: Sys)
    requires RankSound(s)
    ensures SysOk(s) && Inv(s) && VersionStates(s.a) && RankFlows(s)
  {
    hide Handover, AgencyFollows, StatusFollows, VersionStates, RankFlows;
  }

  lemma ScansKeepRank(s: Sys, xs: seq<Action>)
    requires SysOk(s) && Scans16(s, xs) && RankPublished(s)
    ensures Announced(Run(s, xs)) && RankPublished(Run(s, xs)) && Run(s, xs).f.rank == s.f.rank
  {
    ScansAnnounce(s, xs);
    hide RankPublished, Announced, Scanning, ScansIn, Run, AllAllowed, AllUnchanging;
    PublishesRank(s, xs);
  }

  lemma RankHeldIs(s: Sys)
    requires RankPublished(s) && RankStored(s.a, s.f.rank) && RankFlows(s) && InputsLeft(s.q) == 0
    ensures RankHeld(s)
  {
  }

  /** From a request to the status memory. */
  lemma RankFirstHalf(s: Sys, p: Phases)
    requires RankSound(s) && s.f.needConfig && Enough(s, p)
    ensures var s4 := Run(Run(Run(Run(s, p.publish), p.announce), p.copy), p.take);
            RankSound(s4) && RankHeld(s4) && s4.f.rank == s.f.rank
  {
    hide Inv, Handover, AgencyFollows, StatusFollows, VersionStates, RankFlows, Run, AllAllowed, AllUnchanging, Calm,
      Scanning, RankPublished, Announced, RankPublishLeft, StoreLeft, RankStored, AllConsume, InputsLeft, ScansIn,
      RoomyCalls, CoreCallsIn, RankHeld, RankSound;
    RankSoundIs(s);
    PublishesRank(s, p.publish);
    var s1 := Run(s, p.publish);
    RankSoundAlways(s, p.publish);
    RankSoundIs(s1);
    ScansKeepRank(s1, p.announce);
    var s2 := Run(s1, p.announce);
    RankSoundAlways(s1, p.announce);
    RankSoundIs(s2);
    StoresRank(s2, p.copy);
    var s3 := Run(s2, p.copy);
    RankSoundAlways(s2, p.copy);
    RankSoundIs(s3);
    TakesRank(s3, p.take);
    RankSoundAlways(s3, p.take);
    RankSoundIs(Run(s3, p.take));
    RankHeldIs(Run(s3, p.take));
  }

  /** From there to the link and back to the core. */
  lemma RankSecondHalf(s: Sys, again: seq<Action>, show: seq<Action>, read: seq<Action>)
    requires RankSound(s) && RankHeld(s) && Scans16(s, again)
    requires var s5 := Run(s, again);
             CalmWithRoom(s5, show, |s5.q.status| + 397)
             && CalmWithRoom(Run(s5, show), read, 0) && CoreCallsIn(read, true) >= 115
    ensures var r := Run(Run(Run(s, again), show), read); RankReadBack(r.f) && r.f.rank == s.f.rank
  {
    hide Inv, Handover, AgencyFollows, StatusFollows, VersionStates, RankFlows, Run, AllAllowed, AllUnchanging, Calm,
      Scanning, Announced, ScansIn, RoomyCalls, CoreCallsIn, RankHeld, RankSound, Shown, CallsLeft, RankReadBack,
      RankReadLeft;
    RankSoundIs(s);
    ScansAnnounce(s, again);
    RankHeldAlways(s, again);
    var s5 := Run(s, again);
    RankSoundAlways(s, again);
    RankSoundIs(s5);
    CalmSettles(s5, show);
    RankHeldAlways(s5, show);
    var s6 := Run(s5, show);
    RankSoundAlways(s5, show);
    RankSoundIs(s6);
    ReadsRank(s6, read);
  }

  /** At power-up no rank is on its way. */
  ghost predicate RankZeroed(s: Sys) {
    s.a.cb.CbWait? && s.a.config[0] == s.m.status[STATUS_OWN_RANK] == 0 && s.q.statusProc == []
  }

  lemma StartRankSound(s: Sys)
    requires PowerUp(s) && RankZeroed(s) && s.a.mb.CbWait? && Inv(s)
    ensures RankSound(s)
  {
    hide Handover, AgencyFollows, StatusFollows;
  }

  /** After any allowed run from power-up and then a change of the rank: such schedules end with the new rank read back
      from the status memory. */
  lemma RankReturns(s0: Sys, xs: seq<Action>, rank: nat, p: Phases)
    requires PowerUp(s0) && RankZeroed(s0) && s0.a.mb.CbWait? && AllAllowed(s0, xs)
    requires Enough(Next(Run(s0, xs), ChangeRank(rank)), p)
    ensures AfterPhases(Next(Run(s0, xs), ChangeRank(rank)), p).f.nalStatus[13] == rank
  {
    StartKeeps(s0);
    StartRankSound(s0);
    RankSoundAlways(s0, xs);
    var s := Next(Run(s0, xs), ChangeRank(rank));
    RankChangeSound(Run(s0, xs), rank);
    hide RankSound, Run, AllAllowed, AllUnchanging, Calm, Scanning, Inv, PowerUp, RankZeroed, RankHeld, CoreCallsIn,
      RoomyCalls, Next;
    RankFirstHalf(s, p);
    var s4 := Run(Run(Run(Run(s, p.publish), p.announce), p.copy), p.take);
    RankSecondHalf(s4, p.announceAgain, p.show, p.read);
  }

  lemma RankChangeSound(s: Sys, rank: nat)
    requires RankSound(s)
    ensures var r := Next(s, ChangeRank(rank)); RankSound(r) && r.f.needConfig && r.f.rank == rank
  {
    hide AgencyFollows, StatusFollows, VersionStates, RankFlows, InPipe, InConfig, Handover;
    StepKeeps(s, ChangeRank(rank));
    VersionStatesAre(s, rank);
    RankFlowsKept(s, ChangeRank(rank));
  }

  lemma VersionStatesAre(s: Sys, rank: nat)
    requires SysOk(s)
    ensures Next(s, ChangeRank(rank)).a == s.a
  {
  }
}
