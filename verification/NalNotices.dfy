/** The core notices what the network layer has lost: while the link shows another version or another rank, boundedly
    many calls of the core with the check interval passed lead to a new hand-over; while it shows the core's own, to
    the saving of the port words. */
module NalNotices {
  import opened NalLink
  import opened NalStatus
  import opened NalHandover
  import opened NalProgress

  // ---- The table ----

  /** The core is about to hand the table and the configuration over again. */
  ghost predicate TableDue(f: Fmc) {
    f.needMrt && f.needConfig && f.fsm.LinkWait?
  }

  /** Calls of the core with the check interval passed until it has compared a version read afresh. */
  function VersionCheckLeft(f: Fmc): (n: nat)
    requires FmcOk(f)
    ensures 0 < n <= 108
  {
    var c, m := if f.needConfig then 3 else 0, if f.needMrt then 70 else 0;
    match f.fsm
    case LinkWait => 17 + m + c
    case LinkIdle => 18 + m + c
    case UpdateConfig => 19 + m
    case UpdateMrt => 19 + c + (f.maxNode - f.copyIndex)
    case UpdateSavedState => 92
    case UpdateState =>
      (if f.requestCnt == 0 || f.nalStatus[STATUS_MRT_VERSION] != f.version then 0 else 92) + (WORDS - f.requestCnt)
  }

  lemma CoreChecksVersion(s: Sys, elapsed: bool)
    requires SysOk(s) && s.l.status[0] != s.f.version
    ensures var r := Next(s, FmcCall(elapsed));
            && r.f.version == s.f.version
            && (!TableDue(r.f) ==> VersionCheckLeft(r.f) <= VersionCheckLeft(s.f)
                                   && (elapsed ==> VersionCheckLeft(r.f) < VersionCheckLeft(s.f)))
  {
  }

  /** The link shows another version in every state of the schedule. */
  ghost predicate ShowsOtherVersion(s: Sys, xs: seq<Action>)
    requires SysOk(s) && AllAllowed(s, xs)
    decreases |xs|
  {
    s.l.status[0] != s.f.version && (xs != [] ==> ShowsOtherVersion(Next(s, xs[0]), xs[1..]))
  }

  /** In some state of the schedule the hand-over is due. */
  ghost predicate SometimeTableDue(s: Sys, xs: seq<Action>)
    requires SysOk(s) && AllAllowed(s, xs)
    decreases |xs|
  {
    TableDue(s.f) || (xs != [] && SometimeTableDue(Next(s, xs[0]), xs[1..]))
  }

  lemma VersionCheckStep(s: Sys, x: Action)
    requires SysOk(s) && Allowed(s, x) && Unchanging(x) && s.l.status[0] != s.f.version
    ensures var r := Next(s, x);
            TableDue(r.f)
            || VersionCheckLeft(r.f) + (if x.FmcCall? && x.elapsed then 1 else 0) <= VersionCheckLeft(s.f)
  {
    if x.FmcCall? {
      CoreChecksVersion(s, x.elapsed);
    } else {
      OthersKeepConfig(s, x);
    }
    hide Next, VersionCheckLeft;
  }

  /** Whatever the other processes do: as long as the link shows another version, enough such calls find it, and table
      and configuration become due. */
  lemma {:induction false} VersionNoticed(s: Sys, xs: seq<Action>)
    requires SysOk(s) && AllAllowed(s, xs) && AllUnchanging(xs) && ShowsOtherVersion(s, xs)
    requires CoreCallsIn(xs, true) >= VersionCheckLeft(s.f)
    ensures SometimeTableDue(s, xs)
    decreases |xs|
  {
    hide Next, Allowed, TableDue, VersionCheckLeft, Unchanging, AllUnchanging;
    if xs != [] {
      UnchangingRest(xs);
      VersionCheckStep(s, xs[0]);
      if TableDue(Next(s, xs[0]).f) {
        DueAtOnce(Next(s, xs[0]), xs[1..]);
      } else {
        VersionNoticed(Next(s, xs[0]), xs[1..]);
      }
    }
  }

  lemma DueAtOnce(s: Sys, xs: seq<Action>)
    requires SysOk(s) && AllAllowed(s, xs) && TableDue(s.f)
    ensures SometimeTableDue(s, xs)
  {
    hide TableDue, Next, Allowed;
  }

  // ---- The rank ----

  ghost predicate ConfigDue(f: Fmc) {
    f.needConfig && f.fsm.LinkWait?
  }

  /** The same for a rank read afresh. */
  function RankCheckLeft(f: Fmc): (n: nat)
    requires FmcOk(f)
    ensures 0 < n <= 108
  {
    var c, m := if f.needConfig then 3 else 0, if f.needMrt then 70 else 0;
    match f.fsm
    case LinkWait => 17 + m + c
    case LinkIdle => 18 + m + c
    case UpdateConfig => 19 + m
    case UpdateMrt => 19 + c + (f.maxNode - f.copyIndex)
    case UpdateSavedState => 92
    case UpdateState =>
      (if f.requestCnt <= STATUS_OWN_RANK || f.nalStatus[STATUS_OWN_RANK] != f.rank then 0 else 92)
      + (WORDS - f.requestCnt)
  }

  lemma CoreChecksRank(s: Sys, elapsed: bool)
    requires SysOk(s) && s.l.status[13] != s.f.rank
    ensures var r := Next(s, FmcCall(elapsed));
            && r.f.rank == s.f.rank
            && (!ConfigDue(r.f) ==> RankCheckLeft(r.f) <= RankCheckLeft(s.f)
                                    && (elapsed ==> RankCheckLeft(r.f) < RankCheckLeft(s.f)))
  {
  }

  ghost predicate ShowsOtherRank(s: Sys, xs: seq<Action>)
    requires SysOk(s) && AllAllowed(s, xs)
    decreases |xs|
  {
    s.l.status[13] != s.f.rank && (xs != [] ==> ShowsOtherRank(Next(s, xs[0]), xs[1..]))
  }

  ghost predicate SometimeConfigDue(s: Sys, xs: seq<Action>)
    requires SysOk(s) && AllAllowed(s, xs)
    decreases |xs|
  {
    ConfigDue(s.f) || (xs != [] && SometimeConfigDue(Next(s, xs[0]), xs[1..]))
  }

  lemma RankCheckStep(s: Sys, x: Action)
    requires SysOk(s) && Allowed(s, x) && Unchanging(x) && s.l.status[13] != s.f.rank
    ensures var r := Next(s, x);
            ConfigDue(r.f) || RankCheckLeft(r.f) + (if x.FmcCall? && x.elapsed then 1 else 0) <= RankCheckLeft(s.f)
  {
    if x.FmcCall? {
      CoreChecksRank(s, x.elapsed);
    } else {
      OthersKeepConfig(s, x);
    }
    hide Next, RankCheckLeft;
  }

  lemma {:induction false} RankNoticed(s: Sys, xs: seq<Action>)
    requires SysOk(s) && AllAllowed(s, xs) && AllUnchanging(xs) && ShowsOtherRank(s, xs)
    requires CoreCallsIn(xs, true) >= RankCheckLeft(s.f)
    ensures SometimeConfigDue(s, xs)
    decreases |xs|
  {
    hide Next, Allowed, ConfigDue, RankCheckLeft, Unchanging, AllUnchanging;
    if xs != [] {
      UnchangingRest(xs);
      RankCheckStep(s, xs[0]);
      if ConfigDue(Next(s, xs[0]).f) {
        ConfigDueAtOnce(Next(s, xs[0]), xs[1..]);
      } else {
        RankNoticed(Next(s, xs[0]), xs[1..]);
      }
    }
  }

  lemma ConfigDueAtOnce(s: Sys, xs: seq<Action>)
    requires SysOk(s) && AllAllowed(s, xs) && ConfigDue(s.f)
    ensures SometimeConfigDue(s, xs)
  {
    hide ConfigDue, Next, Allowed;
  }

  // ---- Between the checks ----

  /** No call of the core in the schedule finds the check interval passed. */
  ghost predicate NoneElapsed(xs: seq<Action>) {
    forall x <- xs :: x.FmcCall? ==> !x.elapsed
  }

  /** With nothing to hand over, the core leaves the link alone until the check interval has passed. */
  lemma {:induction false} RestsBetweenChecks(s: Sys, xs: seq<Action>)
    requires SysOk(s) && AllAllowed(s, xs) && AllUnchanging(xs) && NoneElapsed(xs)
    requires s.f.fsm.LinkWait? && !s.f.needMrt && !s.f.needConfig
    ensures Run(s, xs).f == s.f && Run(s, xs).l.config == s.l.config
    decreases |xs|
  {
    hide Next, Allowed, Unchanging, AllUnchanging;
    if xs != [] {
      UnchangingRest(xs);
      assert xs[0] in xs && forall x <- xs[1..] :: x in xs;
      RestStep(s, xs[0]);
      RestsBetweenChecks(Next(s, xs[0]), xs[1..]);
    }
  }

  lemma RestStep(s: Sys, x: Action)
    requires SysOk(s) && Allowed(s, x) && Unchanging(x) && (x.FmcCall? ==> !x.elapsed)
    requires s.f.fsm.LinkWait? && !s.f.needMrt && !s.f.needConfig
    ensures Next(s, x).f == s.f && Next(s, x).l.config == s.l.config
  {
    if !x.FmcCall? {
      OthersKeepConfig(s, x);
      hide Next;
    }
  }

  // ---- The saved words ----

  /** Calls of the core with the check interval passed until it saves the port words. */
  function SaveLeft(f: Fmc): (n: nat)
    requires FmcOk(f)
    ensures n <= 108
  {
    var c, m := if f.needConfig then 3 else 0, if f.needMrt then 70 else 0;
    match f.fsm
    case UpdateSavedState => 0
    case LinkWait => 17 + m + c
    case LinkIdle => 18 + m + c
    case UpdateConfig => 19 + m
    case UpdateMrt => 19 + c + (f.maxNode - f.copyIndex)
    case UpdateState =>
      (if (f.requestCnt == 0 || f.nalStatus[STATUS_MRT_VERSION] == f.version)
          && (f.requestCnt <= STATUS_OWN_RANK || f.nalStatus[STATUS_OWN_RANK] == f.rank) then 0 else 92)
      + (WORDS - f.requestCnt)
  }

  lemma CoreSaves(s: Sys, elapsed: bool)
    requires SysOk(s) && s.l.status[0] == s.f.version && s.l.status[13] == s.f.rank && !s.f.fsm.UpdateSavedState?
    ensures var r := Next(s, FmcCall(elapsed));
            && r.f.version == s.f.version && r.f.rank == s.f.rank && SaveLeft(r.f) <= SaveLeft(s.f)
            && (elapsed ==> SaveLeft(r.f) < SaveLeft(s.f))
  {
  }

  /** The link shows the core's version and rank in every state of the schedule. */
  ghost predicate ShowsOwn(s: Sys, xs: seq<Action>)
    requires SysOk(s) && AllAllowed(s, xs)
    decreases |xs|
  {
    s.l.status[0] == s.f.version && s.l.status[13] == s.f.rank && (xs != [] ==> ShowsOwn(Next(s, xs[0]), xs[1..]))
  }

  /** In some state of the schedule the core is about to save the port words. */
  ghost predicate SometimeSaving(s: Sys, xs: seq<Action>)
    requires SysOk(s) && AllAllowed(s, xs)
    decreases |xs|
  {
    s.f.fsm.UpdateSavedState? || (xs != [] && SometimeSaving(Next(s, xs[0]), xs[1..]))
  }

  lemma SaveStep(s: Sys, x: Action)
    requires SysOk(s) && Allowed(s, x) && Unchanging(x) && !s.f.fsm.UpdateSavedState?
    requires s.l.status[0] == s.f.version && s.l.status[13] == s.f.rank
    ensures SaveLeft(Next(s, x).f) + (if x.FmcCall? && x.elapsed then 1 else 0) <= SaveLeft(s.f)
  {
    if x.FmcCall? {
      CoreSaves(s, x.elapsed);
    } else {
      OthersKeepConfig(s, x);
    }
    hide Next, SaveLeft;
  }

  /** Whatever the other processes do: as long as the link shows the core's version and rank, enough such calls lead to
      the saving of the port words. */
  lemma {:induction false} PortsSaved(s: Sys, xs: seq<Action>)
    requires SysOk(s) && AllAllowed(s, xs) && AllUnchanging(xs) && ShowsOwn(s, xs)
    requires CoreCallsIn(xs, true) >= SaveLeft(s.f)
    ensures SometimeSaving(s, xs)
    decreases |xs|
  {
    hide Next, Allowed, Unchanging, AllUnchanging, SaveLeft;
    if xs == [] {
      NoneLeftToSave(s.f);
    } else if !s.f.fsm.UpdateSavedState? {
      UnchangingRest(xs);
      SaveStep(s, xs[0]);
      PortsSaved(Next(s, xs[0]), xs[1..]);
    }
  }

  lemma NoneLeftToSave(f: Fmc)
    requires FmcOk(f) && SaveLeft(f) == 0
    ensures f.fsm.UpdateSavedState?
  {
  }
}
