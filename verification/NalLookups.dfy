/** The replies of the agency once a table is handed over: in every run, each stream gets the answers to its own
    requests, in order, from the core's table. */
module NalLookups {
  import opened NalLink
  import opened NalStatus
  import opened NalHandover

  /** No table change in the schedule. */
  ghost predicate SameTable(xs: seq<Action>) {
    forall x <- xs :: !x.ChangeTable?
  }

  lemma SameTableRest(xs: seq<Action>)
    requires SameTable(xs) && xs != []
    ensures !xs[0].ChangeTable? && SameTable(xs[1..])
  {
    assert xs[0] in xs && forall x <- xs[1..] :: x in xs;
  }

  /** The link and the copier hold the core's rows. */
  ghost predicate InPlace(s: Sys) {
    s.f.maxNode < MAX_MRT_SIZE && RowsAgree(s.l.mrt, s.f, MAX_MRT_SIZE) && RowsAgree(s.a.mrt, s.f, MAX_MRT_SIZE)
  }

  lemma InPlaceKept(s: Sys, x: Action)
    requires SysOk(s) && Allowed(s, x) && !x.ChangeTable? && InPlace(s)
    ensures var r := Next(s, x);
            && InPlace(r) && r.f.mrt == s.f.mrt && r.f.maxNode == s.f.maxNode && s.announced <= r.announced
  {
    hide InPipe, InConfig;
    match x
    case A4lCall(full) =>
      MainInPlace(s);
      SubsAreInert(MainNext(s), full, 0);
      hide SubSteps, MainStep, RowsAgree;
    case FmcCall(elapsed) =>
      FmcInPlace(s, elapsed);
      hide FmcStep, RowsAgree;
    case MemoryCall(i) => hide MemoryStep, RowsAgree;
    case _ => hide Put, Answered, WithAsked;
  }

  lemma FmcInPlace(s: Sys, elapsed: bool)
    requires SysOk(s) && InPlace(s)
    ensures var r := Next(s, FmcCall(elapsed));
            InPlace(r) && r.f.mrt == s.f.mrt && r.f.maxNode == s.f.maxNode && r.announced == s.announced
  {
  }

  lemma MainInPlace(s: Sys)
    requires SysOk(s) && InPlace(s)
    ensures InPlace(MainNext(s)) && s.announced <= MainNext(s).announced && MainNext(s).f == s.f
  {
  }

  function RoomIn(full: LookupFull, k: Asker): bool {
    match k
    case AskUdpTx => !full.udpTx
    case AskTcpTx => !full.tcpTx
    case AskUdpRx => !full.udpRx
    case AskTcpRx => !full.tcpRx
  }

  /** Its place in the order in which the agency looks at the streams. */
  function Turn(k: Asker): nat {
    match k
    case AskUdpTx => 0
    case AskTcpTx => 1
    case AskUdpRx => 2
    case AskTcpRx => 3
  }

  predicate Ready(ls: Lookups, full: LookupFull, k: Asker) {
    LookupOf(ls, k).requests != [] && RoomIn(full, k)
  }

  /** A call without a pending update answers the first stream that has a request and room for the reply, and no
      other. */
  lemma FirstReadyAnswered(t: Table, ls: Lookups, full: LookupFull, k: Asker)
    ensures LookupOf(Answered(t, ls, full), k) != LookupOf(ls, k)
            <==> Ready(ls, full, k) && forall j | Ready(ls, full, j) :: Turn(k) <= Turn(j)
  {
    hide NodeFrom, GetIp;
    assert Ready(ls, full, AskUdpTx) || Ready(ls, full, AskTcpTx) || Ready(ls, full, AskUdpRx)
           || Ready(ls, full, AskTcpRx) || Answered(t, ls, full) == ls;
    assert forall l: Lookup, v | l.requests != [] :: |Replied(l, v).replies| != |l.replies|;
  }

  /** The reply `reply` to the request `asked` is right for the table of `f`: to a rank the row, except that an
      unannounced row equal to the marker gives zero; to an address its first row. */
  ghost predicate RightReply(f: Fmc, announced: set<nat>, k: Asker, asked: nat, reply: nat) {
    if k.AskUdpTx? || k.AskTcpTx? then
      if asked < MAX_MRT_SIZE then
        asked <= f.maxNode ==>
          && (reply == f.mrt[asked] || (f.mrt[asked] == MRT_MARKER && reply == 0))
          && (f.mrt[asked] != MRT_MARKER || asked in announced ==> reply == f.mrt[asked])
      else reply == 0
    else
      (asked != 0 && asked != MRT_MARKER) || NoneMissing(f, announced) ==>
        if HasRow(f, asked) then FirstRow(f, asked, reply)
        else reply == INVALID_MRT_VALUE || f.maxNode < reply < MAX_MRT_SIZE
  }

  lemma RankReply(s: Sys, asked: nat)
    requires AgencyFollows(s) && InPlace(s) && s.q.mrt == []
    ensures RightReply(s.f, s.announced, AskUdpTx, asked, GetIp(s.agency, asked))
    ensures RightReply(s.f, s.announced, AskTcpTx, asked, GetIp(s.agency, asked))
  {
    HandedOverIsServed(s);
    hide AgencyFollows, RowsAgree;
  }

  lemma AddressReply(s: Sys, asked: nat)
    requires AgencyFollows(s) && InPlace(s) && s.q.mrt == []
    ensures RightReply(s.f, s.announced, AskUdpRx, asked, NodeFrom(s.agency, asked, 0))
    ensures RightReply(s.f, s.announced, AskTcpRx, asked, NodeFrom(s.agency, asked, 0))
  {
    HandedOverIsServed(s);
    NodeFromIs(s.agency, asked, 0);
    hide AgencyFollows, RowsAgree, NodeFrom, HasRow, FirstRow, NoneMissing, Served, IsNodeId;
    if (asked != 0 && asked != MRT_MARKER) || NoneMissing(s.f, s.announced) {
      ReverseServed(s.agency, s.f, s.announced, asked, NodeFrom(s.agency, asked, 0));
    }
  }

  /** What an action does to one lookup: nothing, a new request, or a right reply to its first request. */
  ghost predicate StepServes(s: Sys, x: Action, k: Asker, l: Lookup, r: Lookup) {
    || (x.Ask? && x.asker == k && r == Asked(l, x.value))
    || (!(x.Ask? && x.asker == k) && r == l)
    || (!(x.Ask? && x.asker == k) && l.requests != [] && r.requests == l.requests[1..]
        && |r.replies| == |l.replies| + 1 && r.replies[..|l.replies|] == l.replies
        && RightReply(s.f, s.announced, k, l.requests[0], r.replies[|l.replies|]))
  }

  lemma ActionServes(s: Sys, x: Action, k: Asker)
    requires Inv(s) && InPlace(s) && Allowed(s, x)
    ensures StepServes(s, x, k, LookupOf(s.lookups, k), LookupOf(Next(s, x).lookups, k))
  {
    hide Handover, StatusFollows, InPipe, InConfig, RightReply, NodeFrom, InPlace, AgencyFollows;
    match x
    case AgencyCall(full) =>
      var l := LookupOf(s.lookups, k);
      if s.q.mrt == [] && l.requests != [] {
        RankReply(s, l.requests[0]);
        AddressReply(s, l.requests[0]);
      }
    case A4lCall(full) => hide A4lStep;
    case MemoryCall(i) => hide MemoryStep;
    case FmcCall(elapsed) => hide FmcStep;
    case _ =>
  }

  /** The requests that the schedule adds to a stream. */
  function AsksIn(xs: seq<Action>, k: Asker): seq<nat> {
    if xs == [] then [] else (if xs[0].Ask? && xs[0].asker == k then [xs[0].value] else []) + AsksIn(xs[1..], k)
  }

  /** The requests of `l` and then `asks` were taken up to those left in `r`, and each got its right reply. */
  ghost predicate Serves(f: Fmc, announced: set<nat>, k: Asker, l: Lookup, asks: seq<nat>, r: Lookup) {
    var all, n := l.requests + asks, |r.replies| - |l.replies|;
    && 0 <= n <= |all| && r.requests == all[n..] && r.replies[..|l.replies|] == l.replies
    && forall j | 0 <= j < n :: RightReply(f, announced, k, all[j], r.replies[|l.replies| + j])
  }

  lemma ServesNone(f: Fmc, announced: set<nat>, k: Asker, l: Lookup)
    ensures Serves(f, announced, k, l, [], l)
  {
    assert l.requests + [] == l.requests;
  }

  lemma RightReplyMore(f: Fmc, g: Fmc, few: set<nat>, many: set<nat>, k: Asker, asked: nat, reply: nat)
    requires RightReply(g, many, k, asked, reply) && few <= many && f.mrt == g.mrt && f.maxNode == g.maxNode
    ensures RightReply(f, few, k, asked, reply)
  {
    if HasRow(f, asked) {
      var r :| 0 <= r < MAX_MRT_SIZE && r <= f.maxNode && f.mrt[r] == asked;
      assert g.mrt[r] == asked;
    }
    if HasRow(g, asked) {
      var r :| 0 <= r < MAX_MRT_SIZE && r <= g.maxNode && g.mrt[r] == asked;
      assert f.mrt[r] == asked;
    }
  }

  lemma ServesMore(f: Fmc, g: Fmc, few: set<nat>, many: set<nat>, k: Asker, l: Lookup, asks: seq<nat>, r: Lookup)
    requires Serves(g, many, k, l, asks, r) && few <= many && f.mrt == g.mrt && f.maxNode == g.maxNode
    ensures Serves(f, few, k, l, asks, r)
  {
    hide RightReply;
    var all, n := l.requests + asks, |r.replies| - |l.replies|;
    forall j | 0 <= j < n
      ensures RightReply(f, few, k, all[j], r.replies[|l.replies| + j])
    {
      RightReplyMore(f, g, few, many, k, all[j], r.replies[|l.replies| + j]);
    }
  }

  lemma AskThenServes(f: Fmc, announced: set<nat>, k: Asker, l: Lookup, v: nat, asks: seq<nat>, r: Lookup)
    requires Serves(f, announced, k, Asked(l, v), asks, r)
    ensures Serves(f, announced, k, l, [v] + asks, r)
  {
    hide RightReply;
    assert (l.requests + [v]) + asks == l.requests + ([v] + asks);
  }

  lemma ReplyThenServes(f: Fmc, announced: set<nat>, k: Asker, l: Lookup, m: Lookup, asks: seq<nat>, r: Lookup)
    requires l.requests != [] && m.requests == l.requests[1..] && Serves(f, announced, k, m, asks, r)
    requires |m.replies| == |l.replies| + 1 && m.replies[..|l.replies|] == l.replies
    requires RightReply(f, announced, k, l.requests[0], m.replies[|l.replies|])
    ensures Serves(f, announced, k, l, asks, r)
  {
    hide RightReply;
    var all, rest := l.requests + asks, m.requests + asks;
    assert all == [l.requests[0]] + rest;
    assert r.replies[..|l.replies|] == r.replies[..|m.replies|][..|l.replies|];
    assert r.replies[|l.replies|] == r.replies[..|m.replies|][|l.replies|];
    forall j | 0 <= j < |r.replies| - |l.replies|
      ensures RightReply(f, announced, k, all[j], r.replies[|l.replies| + j])
    {
      if j > 0 {
        assert all[j] == rest[j - 1] && r.replies[|l.replies| + j] == r.replies[|m.replies| + (j - 1)];
      }
    }
  }

  /** In every run that keeps the table. */
  lemma {:induction false} RepliesServe(s: Sys, xs: seq<Action>, k: Asker)
    requires Inv(s) && InPlace(s) && AllAllowed(s, xs) && SameTable(xs)
    ensures Serves(s.f, s.announced, k, LookupOf(s.lookups, k), AsksIn(xs, k), LookupOf(Run(s, xs).lookups, k))
    decreases |xs|
  {
    hide Next, Handover, AgencyFollows, StatusFollows, InPipe, InConfig, InPlace, SameTable, Serves, RightReply;
    var l := LookupOf(s.lookups, k);
    if xs == [] {
      ServesNone(s.f, s.announced, k, l);
    } else {
      var t, rest := Next(s, xs[0]), xs[1..];
      SameTableRest(xs);
      StepKeeps(s, xs[0]);
      InPlaceKept(s, xs[0]);
      ActionServes(s, xs[0], k);
      RepliesServe(t, rest, k);
      ServeFirst(s, xs, k, LookupOf(t.lookups, k), t, LookupOf(Run(t, rest).lookups, k));
    }
  }

  lemma ServeFirst(s: Sys, xs: seq<Action>, k: Asker, m: Lookup, t: Sys, r: Lookup)
    requires xs != [] && StepServes(s, xs[0], k, LookupOf(s.lookups, k), m)
    requires t.f.mrt == s.f.mrt && t.f.maxNode == s.f.maxNode && s.announced <= t.announced
    requires Serves(t.f, t.announced, k, m, AsksIn(xs[1..], k), r)
    ensures Serves(s.f, s.announced, k, LookupOf(s.lookups, k), AsksIn(xs, k), r)
  {
    hide Serves, RightReply;
    var l, asks := LookupOf(s.lookups, k), AsksIn(xs[1..], k);
    ServesMore(s.f, t.f, s.announced, t.announced, k, m, asks, r);
    if xs[0].Ask? && xs[0].asker == k {
      AskThenServes(s.f, s.announced, k, l, xs[0].value, asks, r);
    } else {
      assert AsksIn(xs, k) == asks;
      if m != l {
        ReplyThenServes(s.f, s.announced, k, l, m, asks, r);
      }
    }
  }

  /** After any allowed run from power-up in which the core has read back its own version, and while the table stays:
      every stream gets right replies to its own requests, in order. */
  lemma RepliesAfterReadBack(s0: Sys, xs: seq<Action>, ys: seq<Action>, k: Asker)
    requires PowerUp(s0) && AllAllowed(s0, xs) && AllAllowed(Run(s0, xs), ys) && SameTable(ys)
    requires Run(s0, xs).f.version >= 1 && Run(s0, xs).f.nalStatus[STATUS_MRT_VERSION] == Run(s0, xs).f.version
    ensures var s := Run(s0, xs);
            Serves(s.f, s.announced, k, LookupOf(s.lookups, k), AsksIn(ys, k), LookupOf(Run(s, ys).lookups, k))
  {
    hide Run, AllAllowed, StatusFollows, AgencyFollows, SameTable, Serves;
    StartKeeps(s0);
    RunKeeps(s0, xs);
    RepliesServe(Run(s0, xs), ys, k);
  }
}
