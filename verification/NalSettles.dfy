/** Progress of the status replication: once the status memory stops changing, boundedly many calls of the AXI process
    make the link show it, whatever the other processes do meanwhile. */
module NalSettles {
  import opened NalLink
  import opened NalStatus
  import opened NalHandover

  /** The states that the version broadcast uses. */
  ghost predicate VersionStates(a: A4l) {
    a.mb.CbWait? || a.mb.CbStart? || a.mb.Cb1? || a.mb.Cb2?
  }

  function StagesLeft(b: Bcast): (n: nat)
    ensures n <= 4
  {
    match b
    case CbWait => 0
    case CbStart => 4
    case Cb30 => 3
    case Cb31 => 2
    case _ => 1
  }

  function VersionStagesLeft(b: Bcast): (n: nat)
    ensures n <= 3
  {
    match b
    case CbStart => 3
    case Cb1 => 2
    case Cb2 => 1
    case _ => 0
  }

  /** Calls with room that the current copy pass still takes at most. */
  function PassLeft(a: A4l): (n: nat)
    requires A4lOk(a)
    ensures 0 < n <= 196
  {
    match a.fsm
    case StatusUpdate => 196
    case CopyConfig => 100 + 6 * (WORDS - a.index)
    case CopyConfig2 => 101 + 6 * (WORDS - 1 - a.index) + StagesLeft(a.cb)
    case CopyMrt => 25 + (MAX_MRT_SIZE - a.index)
    case CopyStatus => 9 + (WORDS - a.index)
    case CopyFinish => 9
    case WaitForSubFsms => 1 + StagesLeft(a.cb) + VersionStagesLeft(a.mb)
  }

  /** The link shows the status memory, and no update is queued. */
  ghost predicate Shown(s: Sys) {
    s.q.status == [] && s.l.status == s.m.status
  }

  /** Calls with room until `Shown`. A pass that began with updates queued is followed by a drain and another pass. */
  ghost function CallsLeft(s: Sys): (n: nat)
    requires A4lOk(s.a)
    ensures n <= |s.q.status| + 397 && (n == 0 <==> Shown(s))
  {
    if Shown(s) then 0
    else if s.a.fsm.StatusUpdate? then |s.q.status| + 201
    else if s.q.status == [] then PassLeft(s.a)
    else |s.q.status| + 201 + PassLeft(s.a)
  }

  predicate HasRoom(full: Full) {
    !full.portLogic && !full.udpRx && !full.tcpRx && !full.statusProc && !full.version0 && !full.version1
  }

  /** Every change of the status memory is announced. */
  ghost predicate Announced(s: Sys) {
    s.m.old_ == s.m.status
  }

  lemma BroadcastAdvances(a: A4l, q: Streams, full: Full)
    ensures var r := BroadcastStep(a, q, full).0;
            && StagesLeft(r.cb) <= StagesLeft(a.cb) && (a.cb.CbStart? ==> StagesLeft(r.cb) <= 3)
            && (HasRoom(full) && !a.cb.CbWait? ==> StagesLeft(r.cb) < StagesLeft(a.cb))
  {
  }

  lemma VersionAdvances(a: A4l, q: Streams, full: Full)
    requires VersionStates(a)
    ensures var r := VersionStep(a, q, full).0;
            && VersionStates(r) && VersionStagesLeft(r.mb) <= VersionStagesLeft(a.mb)
            && (HasRoom(full) && !a.mb.CbWait? ==> VersionStagesLeft(r.mb) < VersionStagesLeft(a.mb))
  {
  }

  /** What the two broadcasts do to the counters of remaining stages. */
  lemma SubsAdvance(a: A4l, q: Streams, full: Full)
    requires VersionStates(a)
    ensures var r := SubSteps(a, q, full).0;
            && VersionStates(r) && StagesLeft(r.cb) <= StagesLeft(a.cb) && (a.cb.CbStart? ==> StagesLeft(r.cb) <= 3)
            && VersionStagesLeft(r.mb) <= VersionStagesLeft(a.mb)
            && (HasRoom(full) && !a.cb.CbWait? ==> StagesLeft(r.cb) < StagesLeft(a.cb))
            && (HasRoom(full) && !a.mb.CbWait? ==> VersionStagesLeft(r.mb) < VersionStagesLeft(a.mb))
            && (a.mb.CbWait? ==> r.mb.CbWait?)
  {
    BroadcastAdvances(a, q, full);
    BroadcastIsInert(a, q, full);
    var b := BroadcastStep(a, q, full);
    VersionAdvances(b.0, b.1, full);
    VersionIsInert(b.0, b.1, full);
    hide BroadcastStep, StagesLeft, VersionStagesLeft;
  }

  /** The process leaves a pass: the drain has ended, or all broadcasts have. */
  ghost predicate Leaves(a: A4l) {
    a.fsm.StatusUpdate? || (a.fsm.WaitForSubFsms? && a.mb.CbWait? && a.cb.CbWait?)
  }

  /** What a call outside the drain does to the pass. */
  ghost predicate Passes(a: A4l, q: Streams, full: Full, r: (A4l, Link, Streams)) {
    && A4lOk(a) && A4lOk(r.0)
    && VersionStates(r.0) && !r.0.fsm.StatusUpdate? && r.2.status == q.status && r.0.status == a.status
    && PassLeft(r.0) <= PassLeft(a) && (HasRoom(full) ==> PassLeft(r.0) < PassLeft(a))
  }

  lemma ConfigPasses(a: A4l, l: Link, q: Streams, full: Full)
    requires A4lOk(a) && StatusAddresses(q.status) && VersionStates(a) && (a.fsm.CopyConfig? || a.fsm.CopyConfig2?)
    ensures Passes(a, q, full, A4lStep(a, l, q, full))
  {
    var n := MainStep(a, l, q);
    SubsAdvance(n.0, n.2, full);
    SubsKeepStatus(n.0, n.2, full);
    hide SubSteps, HasRoom, StatusAddresses, Propagation;
  }

  lemma RowsPass(a: A4l, l: Link, q: Streams, full: Full)
    requires A4lOk(a) && StatusAddresses(q.status) && VersionStates(a) && (a.fsm.CopyMrt? || a.fsm.CopyStatus?)
    ensures Passes(a, q, full, A4lStep(a, l, q, full))
  {
    var n := MainStep(a, l, q);
    SubsAdvance(n.0, n.2, full);
    SubsKeepStatus(n.0, n.2, full);
    hide SubSteps, HasRoom, StatusAddresses, StagesLeft, VersionStagesLeft;
  }

  lemma EndPasses(a: A4l, l: Link, q: Streams, full: Full)
    requires A4lOk(a) && StatusAddresses(q.status) && VersionStates(a) && !Leaves(a)
    requires a.fsm.CopyFinish? || a.fsm.WaitForSubFsms?
    ensures Passes(a, q, full, A4lStep(a, l, q, full))
  {
    var n := MainStep(a, l, q);
    SubsAdvance(n.0, n.2, full);
    SubsKeepStatus(n.0, n.2, full);
    hide SubSteps, HasRoom, StatusAddresses;
  }

  lemma PassAdvances(a: A4l, l: Link, q: Streams, full: Full)
    requires A4lOk(a) && StatusAddresses(q.status) && VersionStates(a) && !Leaves(a)
    ensures Passes(a, q, full, A4lStep(a, l, q, full))
  {
    hide A4lStep, Passes, A4lOk, StatusAddresses, VersionStates;
    match a.fsm
    case CopyConfig => ConfigPasses(a, l, q, full);
    case CopyConfig2 => ConfigPasses(a, l, q, full);
    case CopyMrt => RowsPass(a, l, q, full);
    case CopyStatus => RowsPass(a, l, q, full);
    case _ => EndPasses(a, l, q, full);
  }

  lemma SubsKeepStatus(a: A4l, q: Streams, full: Full)
    ensures SubSteps(a, q, full).0.status == a.status
  {
    BroadcastIsInert(a, q, full);
    var b := BroadcastStep(a, q, full);
    VersionIsInert(b.0, b.1, full);
    hide BroadcastStep, VersionStep;
  }

  /** A call neither unsettles a link that shows the memory nor, with room, fails to come closer to it. */
  lemma A4lAdvances(s: Sys, full: Full)
    requires SysOk(s) && StatusFollows(s) && VersionStates(s.a) && Announced(s)
    ensures var r := Next(s, A4lCall(full));
            && VersionStates(r.a) && CallsLeft(r) <= CallsLeft(s)
            && (HasRoom(full) && CallsLeft(s) > 0 ==> CallsLeft(r) < CallsLeft(s))
  {
    hide SubSteps, HasRoom;
    if Shown(s) {
      StaysShown(s);
    }
    if Leaves(s.a) {
      SubsAdvance(MainNext(s).a, MainNext(s).q, full);
    } else {
      PassAdvances(s.a, s.l, s.q, full);
      hide MainStep, PassLeft, VersionStates, PutStatus;
    }
  }

  lemma StaysShown(s: Sys)
    requires SysOk(s) && StatusFollows(s) && Announced(s) && Shown(s)
    ensures Shown(MainNext(s))
  {
    if s.a.fsm.CopyStatus? {
      assert s.a.status == s.m.old_;
    }
  }

  /** Every step of any process that leaves the status memory's words alone. */
  lemma StepAdvances(s: Sys, x: Action)
    requires Inv(s) && VersionStates(s.a) && Announced(s) && Allowed(s, x) && Next(s, x).m.status == s.m.status
    ensures var r := Next(s, x);
            && Announced(r) && VersionStates(r.a) && CallsLeft(r) <= CallsLeft(s)
            && (Roomy(x) && CallsLeft(s) > 0 ==> CallsLeft(r) < CallsLeft(s))
  {
    hide PassLeft, PutStatus, PutAll, Handover, AgencyFollows, Allowed;
    match x
    case A4lCall(full) =>
      A4lAdvances(s, full);
      hide A4lStep;
    case FmcCall(elapsed) =>
      FmcWrites(s, elapsed);
      hide FmcStep;
    case _ =>
  }

  predicate Roomy(x: Action) {
    x.A4lCall? && HasRoom(x.full)
  }

  function RoomyCalls(xs: seq<Action>): nat {
    if xs == [] then 0 else (if Roomy(xs[0]) then 1 else 0) + RoomyCalls(xs[1..])
  }

  /** No step of the schedule changes a word of the status memory. */
  ghost predicate Calm(s: Sys, xs: seq<Action>)
    requires SysOk(s) && AllAllowed(s, xs)
    decreases |xs|
  {
    xs == [] || (Next(s, xs[0]).m.status == s.m.status && Calm(Next(s, xs[0]), xs[1..]))
  }

  lemma {:induction false} CalmSettles(s: Sys, xs: seq<Action>)
    requires Inv(s) && VersionStates(s.a) && Announced(s) && AllAllowed(s, xs) && Calm(s, xs)
    requires RoomyCalls(xs) >= CallsLeft(s)
    ensures Shown(Run(s, xs)) && Run(s, xs).m.status == s.m.status
    ensures Announced(Run(s, xs)) && VersionStates(Run(s, xs).a)
    decreases |xs|
  {
    hide Next, Handover, AgencyFollows, StatusFollows, VersionStates, Shown, Announced;
    if xs != [] {
      StepAdvances(s, xs[0]);
      StepKeeps(s, xs[0]);
      CalmSettles(Next(s, xs[0]), xs[1..]);
    }
  }

  // ---- From power-up ----

  lemma {:induction false} VersionStatesAlways(s: Sys, xs: seq<Action>)
    requires SysOk(s) && VersionStates(s.a) && AllAllowed(s, xs)
    ensures VersionStates(Run(s, xs).a)
    decreases |xs|
  {
    if xs != [] {
      match xs[0] {
        case A4lCall(full) => SubsAdvance(MainNext(s).a, MainNext(s).q, full);
        case _ =>
      }
      hide SubSteps, FmcStep, MemoryStep;
      VersionStatesAlways(Next(s, xs[0]), xs[1..]);
    }
  }

  /** In this schedule every call of the status memory finds no other input and has room: it is a scan. */
  ghost predicate Scanning(s: Sys, xs: seq<Action>)
    requires SysOk(s) && AllAllowed(s, xs)
    decreases |xs|
  {
    xs == [] || ((xs[0].MemoryCall? ==> Quiet(xs[0].i, s.q) && !xs[0].i.statusFull)
        && Scanning(Next(s, xs[0]), xs[1..]))
  }

  function ScansIn(xs: seq<Action>): nat {
    if xs == [] then 0 else (if xs[0].MemoryCall? then 1 else 0) + ScansIn(xs[1..])
  }

  lemma ScanIgnoresStreams(m: Memory, q: Streams, p: Streams)
    requires m.index < WORDS
    ensures Scan(m, q, false).0 == Scan(m, p, false).0
  {
    hide Refreshed;
  }

  lemma {:induction false} ScansIgnoreStreams(m: Memory, q: Streams, p: Streams, n: nat)
    requires m.index < WORDS
    ensures Scans(m, q, n).0 == Scans(m, p, n).0
  {
    hide Scan;
    if n > 0 {
      ScansIgnoreStreams(m, q, p, n - 1);
      ScanIgnoresStreams(Scans(m, q, n - 1).0, Scans(m, q, n - 1).1, Scans(m, p, n - 1).1);
    }
  }

  lemma {:induction false} ScansFront(m: Memory, q: Streams, n: nat)
    requires m.index < WORDS && n > 0
    ensures Scans(Scan(m, q, false).0, Scan(m, q, false).1, n - 1) == Scans(m, q, n)
  {
    hide Scan;
    if n > 1 {
      ScansFront(m, q, n - 1);
    }
  }

  /** The status memory after one action of such a schedule. */
  lemma ActionScans(s: Sys, x: Action)
    requires SysOk(s) && Allowed(s, x) && (x.MemoryCall? ==> Quiet(x.i, s.q) && !x.i.statusFull)
    ensures Next(s, x).m == if x.MemoryCall? then Scan(s.m, s.q, false).0 else s.m
  {
    hide Scan, FmcStep, A4lStep, InPipe, InConfig;
  }

  /** Whatever happens between them, the scans work on the status memory as consecutive ones do. */
  lemma {:induction false} ScansInterleave(s: Sys, xs: seq<Action>)
    requires SysOk(s) && AllAllowed(s, xs) && Scanning(s, xs)
    ensures Run(s, xs).m == Scans(s.m, s.q, ScansIn(xs)).0
    decreases |xs|
  {
    hide Next, Scans, Scan, InPipe, InConfig;
    if xs == [] {
      NoScans(s.m, s.q);
    } else {
      var r := Next(s, xs[0]);
      var n := ScansIn(xs[1..]);
      ActionScans(s, xs[0]);
      ScansInterleave(r, xs[1..]);
      if xs[0].MemoryCall? {
        ScansFront(s.m, s.q, n + 1);
        ScansIgnoreStreams(r.m, r.q, Scan(s.m, s.q, false).1, n);
      } else {
        ScansIgnoreStreams(s.m, r.q, s.q, n);
      }
    }
  }

  lemma NoScans(m: Memory, q: Streams)
    requires m.index < WORDS
    ensures Scans(m, q, 0).0 == m
  {
  }

  /** Sixteen scans announce every change, and further ones find none. */
  lemma {:induction false} ManyScansSettle(m: Memory, q: Streams, n: nat)
    requires m.index < WORDS && n >= WORDS
    ensures var r := Scans(m, q, n).0; r.old_ == r.status == Refreshed(m.status, m.derived) && r.derived == m.derived
  {
    hide Refreshed;
    if n == WORDS {
      SixteenScansSettle(m, q);
      ScansCover(m, q, WORDS);
    } else {
      ManyScansSettle(m, q, n - 1);
      RefreshTwice(m.status, m.derived);
    }
  }

  /** An event or a reset changes the counters, and sixteen scans announce the words computed from them at their
      addresses; every other word keeps its value. */
  lemma CountersAnnounced(m: Memory, q: Streams, i: MemoryInput)
    requires m.index < WORDS
    requires i.resetting || (q.statusProc == [] && q.version1 == [] && i.ports == [] && i.event)
    ensures var e := MemoryStep(m, q, i);
            var r := Scans(e.0, e.1, 16).0;
            var d: Derived := if i.resetting then i.afterReset else i.afterEvent;
            && e.1 == q && r.old_ == r.status
            && r.status[4] == d[7] && r.status[5] == d[8] && r.status[8] == d[0] && r.status[9] == d[2]
            && r.status[10] == d[1] && r.status[11] == d[4] && r.status[12] == d[3] && r.status[14] == d[5]
            && r.status[15] == d[6]
            && forall j | 0 <= j <= 3 || 6 <= j <= 7 || j == 13 :: r.status[j] == m.status[j]
  {
    var e := MemoryStep(m, q, i);
    SixteenScansSettle(e.0, e.1);
    RefreshedAt(m.status, if i.resetting then i.afterReset else i.afterEvent);
    hide Scans, Scan, Refreshed;
  }

  lemma RefreshedAt(s: Registers, d: Derived)
    ensures var r := Refreshed(s, d);
            && r[4] == d[7] && r[5] == d[8] && r[8] == d[0] && r[9] == d[2] && r[10] == d[1] && r[11] == d[4]
            && r[12] == d[3] && r[14] == d[5] && r[15] == d[6]
            && forall j | 0 <= j <= 3 || 6 <= j <= 7 || j == 13 :: r[j] == s[j]
  {
  }

  /** After any allowed run: a schedule with at least sixteen scans of the status memory and no other input to it, and
      then any schedule that leaves its words alone and holds enough calls of the AXI process with room, end with the
      link showing the status memory. Both schedules may hold any calls of the other processes. */
  lemma StatusConverges(s0: Sys, xs: seq<Action>, ys: seq<Action>, zs: seq<Action>)
    requires PowerUp(s0) && s0.a.mb.CbWait? && AllAllowed(s0, xs)
    requires AllAllowed(Run(s0, xs), ys) && Scanning(Run(s0, xs), ys) && ScansIn(ys) >= WORDS
    requires var s := Run(Run(s0, xs), ys);
             AllAllowed(s, zs) && Calm(s, zs) && RoomyCalls(zs) >= |s.q.status| + 397
    ensures var m := Run(s0, xs).m;
            var r := Run(Run(Run(s0, xs), ys), zs);
            r.l.status == r.m.status == Refreshed(m.status, m.derived) && r.q.status == []
  {
    StartKeeps(s0);
    hide Handover, AgencyFollows, StatusFollows, Refreshed, PowerUp, Run, AllAllowed, Calm, Scanning, Scans, ScansIn;
    RunKeeps(s0, xs);
    VersionStatesAlways(s0, xs);
    var s1 := Run(s0, xs);
    RunKeeps(s1, ys);
    VersionStatesAlways(s1, ys);
    ScansInterleave(s1, ys);
    ManyScansSettle(s1.m, s1.q, ScansIn(ys));
    CalmSettles(Run(s1, ys), zs);
  }
}
