/** The session table over runs of requests: the flags' invariant, draining, and the partial map it represents. */
module SessionRuns {
  import opened SessionTable

  /** No row is both privileged and marked, and a privileged row is used. */
  ghost predicate FlagsOk(t: Sessions) {
    forall i | 0 <= i < Size(t) :: t.priv[i] ==> t.used[i] && !t.marked[i]
  }

  lemma FlagsKept(t: Sessions, r: Request)
    requires FlagsOk(t)
    ensures FlagsOk(After(t, r))
  {
  }

  function RunAll(t: Sessions, rs: seq<Request>): (u: Sessions)
    ensures Size(u) == Size(t)
  {
    if rs == [] then t else After(RunAll(t, rs[..|rs| - 1]), rs[|rs| - 1])
  }

  ghost predicate Empty(t: Sessions) {
    forall i | 0 <= i < Size(t) :: !t.used[i] && !t.marked[i] && !t.priv[i]
  }

  /** In every reachable state. */
  lemma {:induction false} FlagsAlways(t: Sessions, rs: seq<Request>)
    requires Empty(t)
    ensures FlagsOk(RunAll(t, rs))
  {
    hide After;
    if rs != [] {
      FlagsAlways(t, rs[..|rs| - 1]);
      FlagsKept(RunAll(t, rs[..|rs| - 1]), rs[|rs| - 1]);
    }
  }

  // ---- Draining ----

  /** The session ids of the rows below `n` whose flag is set, in row order. */
  function Selected(t: Sessions, flags: seq<bool>, n: nat): (s: seq<nat>)
    requires n <= Size(t) == |flags|
  {
    if n == 0 then [] else Selected(t, flags, n - 1) + if flags[n - 1] then [t.sid[n - 1]] else []
  }

  function Marked(t: Sessions): seq<nat> {
    Selected(t, t.marked, Size(t))
  }

  /** Used rows without privilege. */
  function Unprivileged(t: Sessions): (s: seq<bool>)
    ensures |s| == Size(t) && forall i | 0 <= i < |s| :: s[i] <==> t.used[i] && !t.priv[i]
  {
    seq(Size(t), i requires 0 <= i < Size(t) => t.used[i] && !t.priv[i])
  }

  lemma {:induction false} SelectedPrefix(t: Sessions, a: seq<bool>, b: seq<bool>, n: nat)
    requires n <= Size(t) == |a| == |b| && forall i | 0 <= i < n :: a[i] == b[i]
    ensures Selected(t, a, n) == Selected(t, b, n)
  {
    if n > 0 {
      SelectedPrefix(t, a, b, n - 1);
    }
  }

  lemma {:induction false} SelectedNone(t: Sessions, flags: seq<bool>, n: nat)
    requires n <= Size(t) == |flags| && forall i | 0 <= i < n :: !flags[i]
    ensures Selected(t, flags, n) == []
  {
    if n > 0 {
      SelectedNone(t, flags, n - 1);
    }
  }

  /** Clearing the first flag removes the first selected id. */
  lemma {:induction false} SelectedFirst(t: Sessions, flags: seq<bool>, k: nat, n: nat)
    requires k < n <= Size(t) == |flags| && flags[k] && forall i | 0 <= i < k :: !flags[i]
    ensures Selected(t, flags, n) == [t.sid[k]] + Selected(t, flags[k := false], n)
  {
    if n == k + 1 {
      SelectedNone(t, flags, k);
      SelectedNone(t, flags[k := false], n);
    } else {
      SelectedFirst(t, flags, k, n - 1);
    }
  }

  /** A request replaces only flags, so the selected ids are those of the old rows. */
  lemma {:induction false} SelectedSameIds(t: Sessions, u: Sessions, flags: seq<bool>, n: nat)
    requires n <= Size(t) == Size(u) == |flags| && t.sid == u.sid
    ensures Selected(t, flags, n) == Selected(u, flags, n)
  {
    if n > 0 {
      SelectedSameIds(t, u, flags, n - 1);
    }
  }

  /** A mark request on a consistent table marks exactly the used, unprivileged sessions. */
  lemma MarkSelects(t: Sessions)
    requires FlagsOk(t)
    ensures Marked(After(t, MarkToDelete)) == Selected(t, Unprivileged(t), Size(t))
  {
    var u := After(t, MarkToDelete);
    SelectedPrefix(u, u.marked, Unprivileged(t), Size(t));
    SelectedSameIds(t, u, Unprivileged(t), Size(t));
  }

  /** Each next-delete request returns the first marked id and removes it; live rows are untouched. */
  lemma NextDeleteStep(t: Sessions)
    ensures var u := After(t, GetNextDelete);
            && NextDelete(t) == (if Marked(t) == [] then UNUSED_SESSION_ENTRY_VALUE else Marked(t)[0])
            && Marked(u) == (if Marked(t) == [] then [] else Marked(t)[1..])
            && u.sid == t.sid && u.triple == t.triple
            && forall i | 0 <= i < Size(t) :: Live(u, i) == Live(t, i)
  {
    var u := After(t, GetNextDelete);
    var k := First(t.marked);
    if k == Size(t) {
      SelectedNone(t, t.marked, Size(t));
    } else {
      SelectedFirst(t, t.marked, k, Size(t));
      SelectedSameIds(t, u, u.marked, Size(t));
    }
  }

  /** The replies to `n` next-delete requests in a row, and the table afterwards. */
  function Drain(t: Sessions, n: nat): (r: (seq<nat>, Sessions))
    decreases n
  {
    if n == 0 then ([], t) else
      var d := Drain(After(t, GetNextDelete), n - 1);
      ([NextDelete(t)] + d.0, d.1)
  }

  /** The replies are the marked ids in row order, each once, and then the unused value. */
  lemma {:induction false} DrainReturnsMarked(t: Sessions, n: nat)
    requires n >= |Marked(t)|
    ensures var d := Drain(t, n);
            && |d.0| == n && d.0[..|Marked(t)|] == Marked(t)
            && (forall k | |Marked(t)| <= k < n :: d.0[k] == UNUSED_SESSION_ENTRY_VALUE)
            && Marked(d.1) == []
    decreases n
  {
    hide After, NextDelete, Marked;
    if n > 0 {
      NextDeleteStep(t);
      DrainReturnsMarked(After(t, GetNextDelete), n - 1);
      var d := Drain(t, n);
      var m := Marked(t);
      if m != [] {
        assert d.0[..|m|] == [m[0]] + d.0[1..][..|m| - 1];
      }
    }
  }

  /** Rows that are live stay live and unchanged while the table drains. */
  lemma {:induction false} DrainKeepsLive(t: Sessions, n: nat)
    ensures var u := Drain(t, n).1;
            && Size(u) == Size(t) && u.sid == t.sid && u.triple == t.triple
            && forall i | 0 <= i < Size(t) :: Live(u, i) == Live(t, i)
    decreases n
  {
    hide After, Marked;
    if n > 0 {
      NextDeleteStep(t);
      DrainKeepsLive(After(t, GetNextDelete), n - 1);
    }
  }

  /** From any reachable table: a mark request and enough next-delete requests return exactly the used,
      unprivileged ids in row order and then 0xFFFE; at every point, every session still resolves as right after
      the mark, and the rows that still resolve are the privileged ones. */
  lemma SessionDrain(t: Sessions, n: nat, sid: nat)
    requires FlagsOk(t) && n >= |Selected(t, Unprivileged(t), Size(t))|
    ensures var ids := Selected(t, Unprivileged(t), Size(t));
            var u := After(t, MarkToDelete);
            var d := Drain(u, n);
            && |d.0| == n && d.0[..|ids|] == ids
            && (forall k | |ids| <= k < n :: d.0[k] == UNUSED_SESSION_ENTRY_VALUE)
            && (forall j: nat :: TripleOf(Drain(u, j).1, sid) == TripleOf(u, sid))
            && (forall i | 0 <= i < Size(t) :: Live(u, i) <==> t.priv[i])
  {
    hide Drain, First, Selected;
    var u := After(t, MarkToDelete);
    MarkSelects(t);
    DrainReturnsMarked(u, n);
    forall j: nat
      ensures TripleOf(Drain(u, j).1, sid) == TripleOf(u, sid)
    {
      DrainKeepsLive(u, j);
      assert LiveSid(Drain(u, j).1, sid) == LiveSid(u, sid);
    }
  }

  // ---- The partial map ----

  /** At most one used row per session id. */
  ghost predicate Unique(t: Sessions) {
    forall i, j | 0 <= i < j < Size(t) && t.used[i] && t.used[j] :: t.sid[i] != t.sid[j]
  }

  ghost predicate FreeUnmarked(t: Sessions) {
    forall i | 0 <= i < Size(t) :: t.marked[i] ==> t.used[i]
  }

  /** The sessions that resolve. */
  ghost function AsMap(t: Sessions): (m: map<nat, nat>)
    requires Unique(t)
    ensures forall i | 0 <= i < Size(t) && Live(t, i) :: t.sid[i] in m && m[t.sid[i]] == t.triple[i]
    ensures forall s | s in m :: exists i :: 0 <= i < Size(t) && Live(t, i) && t.sid[i] == s
  {
    map i | 0 <= i < Size(t) && Live(t, i) :: t.sid[i] := t.triple[i]
  }

  /** Some marked row still holds the id. */
  ghost predicate HeldByMarked(t: Sessions, sid: nat) {
    exists i :: 0 <= i < Size(t) && t.used[i] && t.marked[i] && t.sid[i] == sid
  }

  ghost predicate Privileged(t: Sessions, sid: nat) {
    exists i :: 0 <= i < Size(t) && t.priv[i] && t.sid[i] == sid
  }

  /** Lookups read the map. */
  lemma LookupReadsMap(t: Sessions, sid: nat)
    requires Unique(t)
    ensures TripleOf(t, sid) == if sid in AsMap(t) then AsMap(t)[sid] else UNUSED_TABLE_ENTRY_VALUE
  {
    var k := First(LiveSid(t, sid));
    if sid in AsMap(t) {
      var i :| 0 <= i < Size(t) && Live(t, i) && t.sid[i] == sid;
      assert LiveSid(t, sid)[i];
    }
  }

  /** What the environment has to keep: ids are not added while a marked row holds them, and a delete names no marked
      row. */
  ghost predicate Wanted(t: Sessions, r: Request) {
    match r
    case Add(sid, _) => !HeldByMarked(t, sid)
    case Delete(sid) => !HeldByMarked(t, sid)
    case _ => true
  }

  ghost predicate TableOk(t: Sessions) {
    FlagsOk(t) && Unique(t) && FreeUnmarked(t)
  }

  lemma TableKept(t: Sessions, r: Request)
    requires TableOk(t) && Wanted(t, r)
    ensures TableOk(After(t, r))
  {
    FlagsKept(t, r);
    match r
    case Add(sid, triple) =>
      AddKeepsUnique(t, sid, triple);
    case Delete(sid) =>
      DeleteKeepsFree(t, sid);
    case _ =>
  }

  /** Adding an id keeps the ids unique if and only if the id is live, the table is full, or no used row holds it:
      the duplicate check looks past marked rows. */
  lemma AddKeepsUnique(t: Sessions, sid: nat, triple: nat)
    requires Unique(t)
    ensures Unique(After(t, Add(sid, triple)))
            <==> First(LiveSid(t, sid)) < Size(t) || First(Unused(t)) == Size(t) || !HeldByMarked(t, sid)
  {
    var k, u := First(Unused(t)), After(t, Add(sid, triple));
    if First(LiveSid(t, sid)) == Size(t) && k < Size(t) {
      if HeldByMarked(t, sid) {
        var i :| 0 <= i < Size(t) && t.used[i] && t.marked[i] && t.sid[i] == sid;
        assert u.used[i] && u.used[k] && u.sid[i] == u.sid[k];
      } else {
        assert forall i | 0 <= i < Size(t) && t.used[i] :: t.sid[i] == sid ==> LiveSid(t, sid)[i];
      }
    }
  }

  /** Deleting an id leaves every free row unmarked if and only if the freed row was not marked. */
  lemma DeleteKeepsFree(t: Sessions, sid: nat)
    requires FreeUnmarked(t)
    ensures var k := First(UsedSid(t, sid));
            FreeUnmarked(After(t, Delete(sid))) <==> k == Size(t) || !t.marked[k]
  {
  }

  /** A free row that stayed marked swallows the next session stored in it: the new session does not resolve and the
      next drain closes it. */
  lemma MarkedFreeRowHidesNewSession(t: Sessions, sid: nat, triple: nat)
    requires First(LiveSid(t, sid)) == Size(t) && First(Unused(t)) < Size(t) && t.marked[First(Unused(t))]
    ensures var u := After(t, Add(sid, triple));
            u.used[First(Unused(t))] && TripleOf(u, sid) == UNUSED_TABLE_ENTRY_VALUE && sid in Marked(u)
  {
    var k, u := First(Unused(t)), After(t, Add(sid, triple));
    assert forall i | 0 <= i < Size(t) :: LiveSid(u, sid)[i] == LiveSid(t, sid)[i];
    FirstIs(LiveSid(u, sid), Size(t));
    SelectedHas(u, u.marked, k, Size(t));
  }

  /** A session that is stored has no privilege, whatever its row held before: the next mark request marks it. */
  lemma NewSessionUnprivileged(t: Sessions, sid: nat, triple: nat)
    requires First(LiveSid(t, sid)) == Size(t) && First(Unused(t)) < Size(t)
    ensures var k, u := First(Unused(t)), After(After(t, Add(sid, triple)), MarkToDelete);
            u.marked[k] && u.used[k] && u.sid[k] == sid && u.triple[k] == triple && sid in Marked(u)
  {
    var k, u := First(Unused(t)), After(After(t, Add(sid, triple)), MarkToDelete);
    SelectedHas(u, u.marked, k, Size(t));
  }

  lemma {:induction false} SelectedHas(t: Sessions, flags: seq<bool>, k: nat, n: nat)
    requires k < n <= Size(t) == |flags| && flags[k]
    ensures t.sid[k] in Selected(t, flags, n)
  {
    if k < n - 1 {
      SelectedHas(t, flags, k, n - 1);
    }
  }

  /** The table refines a bounded partial map. */
  lemma RefinesMap(t: Sessions, r: Request)
    requires TableOk(t) && Wanted(t, r)
    ensures TableOk(After(t, r))
    ensures var m, u := AsMap(t), AsMap(After(t, r));
            match r
            case Add(sid, triple) =>
              u == if sid in m || (forall i | 0 <= i < Size(t) :: t.used[i]) then m else m[sid := triple]
            case Delete(sid) => u == m - {sid}
            case MarkAsPrivileged(sid) =>
              var k := First(UsedSid(t, sid));
              u == if k < Size(t) && t.marked[k] then m[sid := t.triple[k]] else m
            case MarkToDelete => forall s :: (s in u <==> s in m && Privileged(t, s)) && (s in u ==> u[s] == m[s])
            case GetNextDelete => u == m
  {
    TableKept(t, r);
    match r
    case Add(sid, triple) => AddRefines(t, sid, triple);
    case Delete(sid) => DeleteRefines(t, sid);
    case MarkAsPrivileged(sid) => PrivilegeRefines(t, sid);
    case MarkToDelete => MarkRefines(t);
    case GetNextDelete => SameLive(t, After(t, r));
  }

  /** A privilege request brings a marked session back into the map, and changes nothing for any other. */
  lemma PrivilegeRefines(t: Sessions, sid: nat)
    requires TableOk(t) && Unique(After(t, MarkAsPrivileged(sid)))
    ensures var k, m := First(UsedSid(t, sid)), AsMap(t);
            AsMap(After(t, MarkAsPrivileged(sid))) == if k < Size(t) && t.marked[k] then m[sid := t.triple[k]] else m
  {
    var k, u, m := First(UsedSid(t, sid)), After(t, MarkAsPrivileged(sid)), AsMap(t);
    if k < Size(t) {
      assert UsedSid(t, sid)[k];
      if t.marked[k] {
        UnmarkedMap(t, sid, k, u, m);
      } else {
        SameLive(t, u);
      }
    }
  }

  lemma UnmarkedMap(t: Sessions, sid: nat, k: nat, u: Sessions, m: map<nat, nat>)
    requires TableOk(t) && Unique(u) && m == AsMap(t)
    requires k < Size(t) && t.used[k] && t.marked[k] && t.sid[k] == sid
    requires u == t.(priv := t.priv[k := true], marked := t.marked[k := false])
    ensures AsMap(u) == m[sid := t.triple[k]]
  {
    var n := m[sid := t.triple[k]];
    forall s | s in n
      ensures exists i :: 0 <= i < Size(u) && Live(u, i) && u.sid[i] == s
    {
      if s == sid {
        assert Live(u, k) && u.sid[k] == s;
      } else {
        var i :| 0 <= i < Size(t) && Live(t, i) && t.sid[i] == s;
        assert Live(u, i) && u.sid[i] == s;
      }
    }
    IsMapOf(u, n);
  }

  /** Tables with the same live rows are the same map. */
  lemma SameLive(t: Sessions, u: Sessions)
    requires Unique(t) && Unique(u) && Size(t) == Size(u) && t.sid == u.sid && t.triple == u.triple
    requires forall i | 0 <= i < Size(t) :: Live(t, i) == Live(u, i)
    ensures AsMap(t) == AsMap(u)
  {
    IsMapOf(u, AsMap(t));
  }

  /** The map is determined by the live rows. */
  lemma IsMapOf(t: Sessions, m: map<nat, nat>)
    requires Unique(t)
    requires forall i | 0 <= i < Size(t) && Live(t, i) :: t.sid[i] in m && m[t.sid[i]] == t.triple[i]
    requires forall s | s in m :: exists i :: 0 <= i < Size(t) && Live(t, i) && t.sid[i] == s
    ensures AsMap(t) == m
  {
    forall s
      ensures s in AsMap(t) <==> s in m
      ensures s in m ==> AsMap(t)[s] == m[s]
    {
      if s in AsMap(t) {
        var i :| 0 <= i < Size(t) && Live(t, i) && t.sid[i] == s;
      }
      if s in m {
        var i :| 0 <= i < Size(t) && Live(t, i) && t.sid[i] == s;
      }
    }
  }

  lemma KnownInMap(t: Sessions, sid: nat)
    requires Unique(t)
    ensures sid in AsMap(t) <==> First(LiveSid(t, sid)) < Size(t)
  {
    var k := First(LiveSid(t, sid));
    if sid in AsMap(t) {
      var i :| 0 <= i < Size(t) && Live(t, i) && t.sid[i] == sid;
      assert LiveSid(t, sid)[i];
    }
  }

  lemma AddRefines(t: Sessions, sid: nat, triple: nat)
    requires TableOk(t) && !HeldByMarked(t, sid) && Unique(After(t, Add(sid, triple)))
    ensures var m, u := AsMap(t), AsMap(After(t, Add(sid, triple)));
            u == if sid in m || (forall i | 0 <= i < Size(t) :: t.used[i]) then m else m[sid := triple]
  {
    KnownInMap(t, sid);
    var k, m, u := First(Unused(t)), AsMap(t), After(t, Add(sid, triple));
    assert k == Size(t) <==> forall i | 0 <= i < Size(t) :: t.used[i] by {
      assert forall i | 0 <= i < Size(t) :: Unused(t)[i] == !t.used[i];
    }
    if u != t {
      AddedMap(t, sid, triple, k, u, m);
    }
  }

  lemma AddedMap(t: Sessions, sid: nat, triple: nat, k: nat, u: Sessions, m: map<nat, nat>)
    requires TableOk(t) && Unique(u) && m == AsMap(t) && sid !in m
    requires k < Size(t) && !t.used[k]
    requires u == Rows(t.triple[k := triple], t.sid[k := sid], t.used[k := true], t.marked, t.priv[k := false])
    ensures AsMap(u) == m[sid := triple]
  {
    var n := m[sid := triple];
    forall s | s in n
      ensures exists i :: 0 <= i < Size(u) && Live(u, i) && u.sid[i] == s
    {
      if s == sid {
        assert Live(u, k) && u.sid[k] == s;
      } else {
        var i :| 0 <= i < Size(t) && Live(t, i) && t.sid[i] == s;
        assert Live(u, i) && u.sid[i] == s;
      }
    }
    IsMapOf(u, n);
  }

  lemma DeleteRefines(t: Sessions, sid: nat)
    requires TableOk(t) && !HeldByMarked(t, sid) && Unique(After(t, Delete(sid)))
    ensures AsMap(After(t, Delete(sid))) == AsMap(t) - {sid}
  {
    var k, u := First(UsedSid(t, sid)), After(t, Delete(sid));
    if k == Size(t) {
      KnownInMap(t, sid);
      assert forall i | 0 <= i < Size(t) :: !UsedSid(t, sid)[i];
    } else {
      assert UsedSid(t, sid)[k];
      DeletedMap(t, sid, k, u, AsMap(t));
    }
  }

  lemma DeletedMap(t: Sessions, sid: nat, k: nat, u: Sessions, m: map<nat, nat>)
    requires TableOk(t) && Unique(u) && m == AsMap(t)
    requires k < Size(t) && t.used[k] && !t.marked[k] && t.sid[k] == sid
    requires u == t.(used := t.used[k := false], priv := t.priv[k := false])
    ensures AsMap(u) == m - {sid}
  {
    var n := m - {sid};
    forall s | s in n
      ensures exists i :: 0 <= i < Size(u) && Live(u, i) && u.sid[i] == s
    {
      var i :| 0 <= i < Size(t) && Live(t, i) && t.sid[i] == s;
      assert Live(u, i) && u.sid[i] == s;
    }
    IsMapOf(u, n);
  }

  lemma MarkRefines(t: Sessions)
    requires TableOk(t) && Unique(After(t, MarkToDelete))
    ensures var m, u := AsMap(t), AsMap(After(t, MarkToDelete));
            forall s :: (s in u <==> s in m && Privileged(t, s)) && (s in u ==> u[s] == m[s])
  {
  }

  /** Live triples are distinct. */
  ghost predicate DistinctTriples(t: Sessions) {
    forall i, j | 0 <= i < j < Size(t) && Live(t, i) && Live(t, j) :: t.triple[i] != t.triple[j]
  }

  /** On live rows the two lookups are inverse to each other: from the id to the triple and back. */
  lemma IdFromTriple(t: Sessions, sid: nat)
    requires Unique(t) && DistinctTriples(t) && sid in AsMap(t)
    ensures SidOf(t, TripleOf(t, sid)) == sid
  {
    hide First, AsMap;
    LookupReadsMap(t, sid);
    var i :| 0 <= i < Size(t) && Live(t, i) && t.sid[i] == sid;
    assert LiveTriple(t, t.triple[i])[i];
    var k := First(LiveTriple(t, t.triple[i]));
    assert LiveTriple(t, t.triple[i])[k];
  }

  ghost predicate HasTriple(t: Sessions, triple: nat) {
    exists i :: 0 <= i < Size(t) && Live(t, i) && t.triple[i] == triple
  }

  /** From the triple to the id and back; a triple on no live row has no id. */
  lemma TripleFromId(t: Sessions, triple: nat)
    requires Unique(t)
    ensures if HasTriple(t, triple) then TripleOf(t, SidOf(t, triple)) == triple
            else SidOf(t, triple) == UNUSED_SESSION_ENTRY_VALUE
  {
    hide First, AsMap;
    var k := First(LiveTriple(t, triple));
    if HasTriple(t, triple) {
      var i :| 0 <= i < Size(t) && Live(t, i) && t.triple[i] == triple;
      assert LiveTriple(t, triple)[i];
    }
    if k < Size(t) {
      assert LiveTriple(t, triple)[k];
      LookupReadsMap(t, t.sid[k]);
    }
  }

  /** Requests kept by the environment, along a run. */
  ghost predicate AllWanted(t: Sessions, rs: seq<Request>)
    decreases |rs|
  {
    rs == [] || (AllWanted(t, rs[..|rs| - 1]) && Wanted(RunAll(t, rs[..|rs| - 1]), rs[|rs| - 1]))
  }

  /** Over every such run from the empty table, the table represents a map. */
  lemma {:induction false} TableAlways(t: Sessions, rs: seq<Request>)
    requires Empty(t) && AllWanted(t, rs)
    ensures TableOk(RunAll(t, rs))
    decreases |rs|
  {
    hide After, Wanted;
    if rs != [] {
      TableAlways(t, rs[..|rs| - 1]);
      TableKept(RunAll(t, rs[..|rs| - 1]), rs[|rs| - 1]);
    }
  }

  // ---- Draining between other requests ----

  /** Requests after a mark request, without another one, as the environment keeps them. */
  ghost predicate Draining(t: Sessions, rs: seq<Request>)
    decreases |rs|
  {
    rs == [] || (!rs[0].MarkToDelete? && Wanted(t, rs[0]) && Draining(After(t, rs[0]), rs[1..]))
  }

  function RunFront(t: Sessions, rs: seq<Request>): (u: Sessions)
    ensures Size(u) == Size(t)
    decreases |rs|
  {
    if rs == [] then t else RunFront(After(t, rs[0]), rs[1..])
  }

  /** The replies to the next-delete requests among `rs`. */
  function Replies(t: Sessions, rs: seq<Request>): seq<nat>
    decreases |rs|
  {
    if rs == [] then [] else (if rs[0].GetNextDelete? then [NextDelete(t)] else []) + Replies(After(t, rs[0]), rs[1..])
  }

  /** A privilege request for a marked session takes it out of the drain. */
  predicate Rescues(t: Sessions, r: Request) {
    r.MarkAsPrivileged? && var k := First(UsedSid(t, r.sid)); k < Size(t) && t.marked[k]
  }

  function Rescued(t: Sessions, rs: seq<Request>): set<nat>
    decreases |rs|
  {
    if rs == [] then {} else (if Rescues(t, rs[0]) then {rs[0].sid} else {}) + Rescued(After(t, rs[0]), rs[1..])
  }

  function Without(s: seq<nat>, ids: set<nat>): seq<nat> {
    if s == [] then [] else Without(s[..|s| - 1], ids) + if s[|s| - 1] in ids then [] else [s[|s| - 1]]
  }

  lemma {:induction false} WithoutNone(s: seq<nat>, ids: set<nat>)
    requires forall x <- s :: x !in ids
    ensures Without(s, ids) == s
  {
    if s != [] {
      WithoutNone(s[..|s| - 1], ids);
      assert s[|s| - 1] in s;
    }
  }

  lemma {:induction false} WithoutConcat(a: seq<nat>, b: seq<nat>, ids: set<nat>)
    ensures Without(a + b, ids) == Without(a, ids) + Without(b, ids)
  {
    if b == [] {
      assert a + b == a;
    } else {
      WithoutConcat(a, b[..|b| - 1], ids);
      assert (a + b)[..|a + b| - 1] == a + b[..|b| - 1];
    }
  }

  lemma {:induction false} WithoutBoth(s: seq<nat>, a: set<nat>, b: set<nat>)
    ensures Without(Without(s, a), b) == Without(s, a + b)
  {
    if s != [] {
      var t, x := s[..|s| - 1], s[|s| - 1];
      WithoutBoth(t, a, b);
      WithoutConcat(Without(t, a), if x in a then [] else [x], b);
      assert Without([x], b) == if x in b then [] else [x] by { assert [x][..0] == []; }
    }
  }

  lemma {:induction false} WithoutIn(s: seq<nat>, ids: set<nat>, x: nat)
    ensures x in Without(s, ids) <==> x in s && x !in ids
    ensures |Without(s, ids)| <= |s|
  {
    if s != [] {
      WithoutIn(s[..|s| - 1], ids, x);
    }
  }

  lemma {:induction false} SelectedIn(t: Sessions, flags: seq<bool>, n: nat, x: nat)
    requires n <= Size(t) == |flags|
    ensures x in Selected(t, flags, n) ==> exists i :: 0 <= i < n && flags[i] && t.sid[i] == x
  {
    if n > 0 {
      SelectedIn(t, flags, n - 1, x);
    }
  }

  /** Clearing one flag takes its id out, if no other flagged row has it. */
  lemma {:induction false} SelectedCleared(t: Sessions, flags: seq<bool>, k: nat, n: nat)
    requires n <= Size(t) == |flags| && k < Size(t) && flags[k]
    requires forall i | 0 <= i < Size(t) && i != k && flags[i] :: t.sid[i] != t.sid[k]
    ensures Selected(t, flags[k := false], n) == Without(Selected(t, flags, n), {t.sid[k]})
  {
    if n > 0 {
      SelectedCleared(t, flags, k, n - 1);
      var s := Selected(t, flags, n - 1);
      var last := if flags[n - 1] then [t.sid[n - 1]] else [];
      WithoutConcat(s, last, {t.sid[k]});
      if flags[n - 1] {
        assert last[..0] == [];
      }
    }
  }

  /** Rows that are not selected may change. */
  lemma {:induction false} SelectedElsewhere(t: Sessions, u: Sessions, flags: seq<bool>, n: nat)
    requires n <= Size(t) == Size(u) == |flags| && forall i | 0 <= i < n && flags[i] :: t.sid[i] == u.sid[i]
    ensures Selected(t, flags, n) == Selected(u, flags, n)
  {
    if n > 0 {
      SelectedElsewhere(t, u, flags, n - 1);
    }
  }

  /** What a request other than a mark or next-delete request does to the marked ids. */
  lemma MarkedAfter(t: Sessions, r: Request)
    requires TableOk(t) && Wanted(t, r) && !r.MarkToDelete? && !r.GetNextDelete?
    ensures Marked(After(t, r)) == Without(Marked(t), if Rescues(t, r) then {r.sid} else {})
  {
    var u := After(t, r);
    if Rescues(t, r) {
      var k := First(UsedSid(t, r.sid));
      assert UsedSid(t, r.sid)[k];
      SelectedCleared(t, t.marked, k, Size(t));
      SelectedSameIds(t, u, u.marked, Size(t));
    } else {
      WithoutNone(Marked(t), {});
      if r.MarkAsPrivileged? {
        assert u.marked == t.marked;
      }
      SelectedElsewhere(t, u, t.marked, Size(t));
    }
  }

  /** Only marked sessions are rescued. */
  lemma {:induction false} RescuedMarked(t: Sessions, rs: seq<Request>, x: nat)
    requires TableOk(t) && Draining(t, rs) && x in Rescued(t, rs)
    ensures x in Marked(t)
    decreases |rs|
  {
    hide After, Marked, Wanted, TableOk;
    var r, u := rs[0], After(t, rs[0]);
    TableKept(t, r);
    if Rescues(t, r) && x == r.sid {
      RescueIsMarked(t, r);
    } else {
      RescuedMarked(u, rs[1..], x);
      if r.GetNextDelete? {
        NextDeleteStep(t);
      } else {
        MarkedAfter(t, r);
        WithoutIn(Marked(t), if Rescues(t, r) then {r.sid} else {}, x);
      }
    }
  }

  lemma RescueIsMarked(t: Sessions, r: Request)
    requires Rescues(t, r)
    ensures r.sid in Marked(t)
  {
    var k := First(UsedSid(t, r.sid));
    assert UsedSid(t, r.sid)[k];
    SelectedHas(t, t.marked, k, Size(t));
  }

  /** The first marked id is not marked again below. */
  lemma FirstMarkedOnce(t: Sessions)
    requires TableOk(t) && Marked(t) != []
    ensures Marked(t)[0] !in Marked(t)[1..]
  {
    var k := First(t.marked);
    if k == Size(t) {
      SelectedNone(t, t.marked, Size(t));
    } else {
      SelectedFirst(t, t.marked, k, Size(t));
      SelectedIn(t, t.marked[k := false], Size(t), t.sid[k]);
    }
  }

  /** The replies `d` are the first of the ids `all`, up to those `left`, and then the unused value; with as many
      replies as there were marks, none is left. */
  ghost predicate Drained(all: seq<nat>, left: seq<nat>, d: seq<nat>, marks: nat) {
    && |left| <= |all| && var n := |all| - |left|;
    && n <= |d| && d[..n] + left == all && (forall k | n <= k < |d| :: d[k] == UNUSED_SESSION_ENTRY_VALUE)
    && (|d| >= marks ==> left == [])
  }

  lemma DrainedNext(x: nat, all: seq<nat>, left: seq<nat>, d: seq<nat>, marks: nat)
    requires Drained(all, left, d, marks)
    ensures Drained([x] + all, left, [x] + d, marks + 1)
  {
    var n := |all| - |left|;
    assert ([x] + d)[..n + 1] == [x] + d[..n];
  }

  lemma DrainedDone(left: seq<nat>, d: seq<nat>)
    requires Drained([], left, d, 0)
    ensures Drained([], left, [UNUSED_SESSION_ENTRY_VALUE] + d, 0)
  {
  }

  lemma DrainedFewer(all: seq<nat>, left: seq<nat>, d: seq<nat>, marks: nat, more: nat)
    requires Drained(all, left, d, marks) && marks <= more
    ensures Drained(all, left, d, more)
  {
  }

  lemma DrainedStart(s: seq<nat>)
    ensures Drained(s, s, [], |s|)
  {
  }

  /** Whatever lies between them, the next-delete requests return the marked ids in row order, each once, without those
      made privileged meanwhile, and then the unused value; enough of them return all. */
  lemma {:induction false} DrainInterleaved(t: Sessions, rs: seq<Request>)
    requires TableOk(t) && Draining(t, rs)
    ensures Drained(Without(Marked(t), Rescued(t, rs)), Marked(RunFront(t, rs)), Replies(t, rs), |Marked(t)|)
    decreases |rs|
  {
    hide After, Marked, Wanted, TableOk, Without, NextDelete, Rescues, Drained;
    if rs == [] {
      WithoutNone(Marked(t), {});
      DrainedStart(Marked(t));
    } else {
      var r, u := rs[0], After(t, rs[0]);
      var rest, left, d := Without(Marked(u), Rescued(u, rs[1..])), Marked(RunFront(u, rs[1..])), Replies(u, rs[1..]);
      TableKept(t, r);
      DrainInterleaved(u, rs[1..]);
      if r.GetNextDelete? {
        ReplyFirst(t, rs);
        if Marked(t) == [] {
          DrainedDone(left, d);
        } else {
          DrainedNext(NextDelete(t), rest, left, d, |Marked(u)|);
        }
      } else {
        var ids := if Rescues(t, r) then {r.sid} else {};
        MarkedAfter(t, r);
        WithoutBoth(Marked(t), ids, Rescued(u, rs[1..]));
        WithoutIn(Marked(t), ids, 0);
        assert Replies(t, rs) == d;
        DrainedFewer(rest, left, d, |Marked(u)|, |Marked(t)|);
      }
    }
  }

  /** A next-delete request takes the first of the ids to come. */
  lemma ReplyFirst(t: Sessions, rs: seq<Request>)
    requires TableOk(t) && Draining(t, rs) && rs != [] && rs[0].GetNextDelete?
    ensures var u := After(t, rs[0]);
            var all, rest := Without(Marked(t), Rescued(t, rs)), Without(Marked(u), Rescued(u, rs[1..]));
            && (if Marked(t) == [] then all == rest == [] else all == [NextDelete(t)] + rest)
            && (Marked(t) == [] ==> NextDelete(t) == UNUSED_SESSION_ENTRY_VALUE)
            && |Marked(u)| == if Marked(t) == [] then 0 else |Marked(t)| - 1
  {
    hide After, Marked, Wanted, TableOk, NextDelete;
    var m, u, ids := Marked(t), After(t, rs[0]), Rescued(t, rs);
    NextDeleteStep(t);
    assert !Rescues(t, rs[0]) && ids == Rescued(u, rs[1..]);
    if m != [] {
      FirstMarkedOnce(t);
      TableKept(t, rs[0]);
      if m[0] in ids {
        RescuedMarked(u, rs[1..], m[0]);
      }
      WithoutConcat([m[0]], m[1..], ids);
      assert [m[0]] + m[1..] == m && Without([m[0]], ids) == [m[0]] by { WithoutNone([m[0]], ids); }
    }
  }

  /** After a mark request on any consistent table, with adds, deletes, lookups and privilege requests in between: the
      next-delete requests return the used, unprivileged sessions in row order, without those made privileged before
      their turn, and then 0xFFFE. */
  lemma SessionDrainInterleaved(t: Sessions, rs: seq<Request>)
    requires TableOk(t) && Draining(After(t, MarkToDelete), rs)
    requires |Replies(After(t, MarkToDelete), rs)| >= |Selected(t, Unprivileged(t), Size(t))|
    ensures var u := After(t, MarkToDelete);
            var ids, d := Without(Selected(t, Unprivileged(t), Size(t)), Rescued(u, rs)), Replies(u, rs);
            && |ids| <= |d| && d[..|ids|] == ids
            && (forall k | |ids| <= k < |d| :: d[k] == UNUSED_SESSION_ENTRY_VALUE)
            && Marked(RunFront(u, rs)) == []
  {
    TableKept(t, MarkToDelete);
    MarkSelects(t);
    DrainInterleaved(After(t, MarkToDelete), rs);
    hide *;
  }

  // ---- Privileged sessions ----

  /** Row `k` holds the session with a privilege, and no other used or marked row holds its id. */
  ghost predicate Protected(t: Sessions, k: nat, sid: nat, triple: nat) {
    && k < Size(t) && t.sid[k] == sid && t.triple[k] == triple && t.used[k] && t.priv[k] && !t.marked[k]
    && forall i | 0 <= i < Size(t) && i != k && (t.used[i] || t.marked[i]) :: t.sid[i] != sid
  }

  /** A privilege request for a stored session makes it privileged, marked before or not. */
  lemma PrivilegeProtects(t: Sessions, sid: nat)
    requires TableOk(t) && First(UsedSid(t, sid)) < Size(t)
    ensures var k := First(UsedSid(t, sid)); Protected(After(t, MarkAsPrivileged(sid)), k, sid, t.triple[k])
  {
    var k := First(UsedSid(t, sid));
    assert UsedSid(t, sid)[k];
  }

  /** Every request but the deletion of the session leaves it privileged. */
  lemma ProtectedKept(t: Sessions, r: Request, k: nat, sid: nat, triple: nat)
    requires Protected(t, k, sid, triple) && r != Delete(sid)
    ensures Protected(After(t, r), k, sid, triple)
  {
    match r
    case Add(other, _) =>
      if other == sid {
        assert LiveSid(t, sid)[k];
      }
      assert First(Unused(t)) < Size(t) ==> Unused(t)[First(Unused(t))];
    case Delete(other) => assert First(UsedSid(t, other)) < Size(t) ==> UsedSid(t, other)[First(UsedSid(t, other))];
    case MarkAsPrivileged(other) =>
    case MarkToDelete =>
    case GetNextDelete =>
  }

  /** A privileged session resolves, and the next-delete request does not return it. */
  lemma ProtectedServed(t: Sessions, k: nat, sid: nat, triple: nat)
    requires Protected(t, k, sid, triple)
    ensures Privileged(t, sid) && TripleOf(t, sid) == triple && sid !in Marked(t)
    ensures sid != UNUSED_SESSION_ENTRY_VALUE ==> NextDelete(t) != sid
  {
    assert LiveSid(t, sid)[k];
    FirstIs(LiveSid(t, sid), k);
    if sid in Marked(t) {
      MarkedOther(t, k, sid, triple);
    }
    NextDeleteStep(t);
    hide First;
  }

  lemma MarkedOther(t: Sessions, k: nat, sid: nat, triple: nat)
    requires Protected(t, k, sid, triple)
    ensures sid !in Marked(t)
  {
    SelectedIn(t, t.marked, Size(t), sid);
  }

  lemma {:induction false} ProtectedAlways(t: Sessions, rs: seq<Request>, k: nat, sid: nat, triple: nat)
    requires Protected(t, k, sid, triple) && Delete(sid) !in rs
    ensures Protected(RunFront(t, rs), k, sid, triple)
    ensures sid != UNUSED_SESSION_ENTRY_VALUE ==> sid !in Replies(t, rs)
    decreases |rs|
  {
    hide After, Protected, NextDelete, Marked;
    if rs != [] {
      ProtectedKept(t, rs[0], k, sid, triple);
      ProtectedServed(t, k, sid, triple);
      ProtectedAlways(After(t, rs[0]), rs[1..], k, sid, triple);
    }
  }

  /** From a privilege request for a stored session on, until a request deletes it: whatever the requests, mark requests
      included, the session has its privilege, resolves to its triple, is never marked, and no next-delete request
      returns it. */
  lemma PrivilegeHolds(t: Sessions, rs: seq<Request>, sid: nat)
    requires TableOk(t) && First(UsedSid(t, sid)) < Size(t) && Delete(sid) !in rs
    ensures var p := After(t, MarkAsPrivileged(sid));
            var u := RunFront(p, rs);
            && Privileged(u, sid) && TripleOf(u, sid) == t.triple[First(UsedSid(t, sid))] && sid !in Marked(u)
            && (sid != UNUSED_SESSION_ENTRY_VALUE ==> sid !in Replies(p, rs))
  {
    hide After, Protected, NextDelete, Marked, TripleOf, Privileged, First, TableOk;
    var k := First(UsedSid(t, sid));
    var p := After(t, MarkAsPrivileged(sid));
    PrivilegeProtects(t, sid);
    ProtectedAlways(p, rs, k, sid, t.triple[k]);
    ProtectedServed(RunFront(p, rs), k, sid, t.triple[k]);
  }

  /** A mark request right after it: the session is kept, and every other used session without privilege is marked. */
  lemma PrivilegeSurvivesMark(t: Sessions, sid: nat)
    requires TableOk(t) && First(UsedSid(t, sid)) < Size(t)
    ensures var u := After(After(t, MarkAsPrivileged(sid)), MarkToDelete);
            && TripleOf(u, sid) == t.triple[First(UsedSid(t, sid))]
            && forall i | 0 <= i < Size(t) :: Live(u, i) <==> t.priv[i] || i == First(UsedSid(t, sid))
  {
    var k, p := First(UsedSid(t, sid)), After(t, MarkAsPrivileged(sid));
    PrivilegeProtects(t, sid);
    ProtectedKept(p, MarkToDelete, k, sid, t.triple[k]);
    ProtectedServed(After(p, MarkToDelete), k, sid, t.triple[k]);
  }
}
