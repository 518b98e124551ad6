/** The TCP session table of the network abstraction layer: five parallel row arrays searched from row 0. */
module SessionTable {
  const UNUSED_TABLE_ENTRY_VALUE: nat := 0x111000
  const UNUSED_SESSION_ENTRY_VALUE: nat := 0xFFFE

  /** The rows: triple, session id, and the three flags. */
  datatype Rows = Rows(triple: seq<nat>, sid: seq<nat>, used: seq<bool>, marked: seq<bool>, priv: seq<bool>)

  type Sessions = t: Rows | |t.sid| == |t.triple| == |t.used| == |t.marked| == |t.priv|
    witness Rows([], [], [], [], [])

  function Size(t: Sessions): nat {
    |t.sid|
  }

  /** The first true position, or the length. */
  function First(s: seq<bool>): (k: nat)
    ensures k <= |s| && (k < |s| ==> s[k]) && forall j | 0 <= j < k :: !s[j]
  {
    if s == [] || s[0] then 0 else
      First(s[1..]) + 1
  }

  lemma FirstIs(s: seq<bool>, k: nat)
    requires k <= |s| && (k < |s| ==> s[k]) && forall j | 0 <= j < k :: !s[j]
    ensures First(s) == k
  {
  }

  /** A live row answers lookups. */
  predicate Live(t: Sessions, i: nat)
    requires i < Size(t)
  {
    t.used[i] && !t.marked[i]
  }

  function LiveSid(t: Sessions, sid: nat): (s: seq<bool>)
    ensures |s| == Size(t) && forall i | 0 <= i < |s| :: s[i] <==> t.sid[i] == sid && Live(t, i)
  {
    seq(Size(t), i requires 0 <= i < Size(t) => t.sid[i] == sid && Live(t, i))
  }

  function LiveTriple(t: Sessions, triple: nat): (s: seq<bool>)
    ensures |s| == Size(t) && forall i | 0 <= i < |s| :: s[i] <==> t.triple[i] == triple && Live(t, i)
  {
    seq(Size(t), i requires 0 <= i < Size(t) => t.triple[i] == triple && Live(t, i))
  }

  function UsedSid(t: Sessions, sid: nat): (s: seq<bool>)
    ensures |s| == Size(t) && forall i | 0 <= i < |s| :: s[i] <==> t.sid[i] == sid && t.used[i]
  {
    seq(Size(t), i requires 0 <= i < Size(t) => t.sid[i] == sid && t.used[i])
  }

  function Unused(t: Sessions): (s: seq<bool>)
    ensures |s| == Size(t) && forall i | 0 <= i < |s| :: s[i] <==> !t.used[i]
  {
    seq(Size(t), i requires 0 <= i < Size(t) => !t.used[i])
  }

  datatype Request =
    | Add(sid: nat, triple: nat)
    | Delete(sid: nat)
    | MarkAsPrivileged(sid: nat)
    | MarkToDelete
    | GetNextDelete

  /** The rows after a request. */
  function After(t: Sessions, r: Request): (u: Sessions)
    ensures Size(u) == Size(t)
  {
    match r
    case Add(sid, triple) =>
      var k := First(Unused(t));
      if First(LiveSid(t, sid)) < Size(t) || k == Size(t) then t
      else Rows(t.triple[k := triple], t.sid[k := sid], t.used[k := true], t.marked, t.priv[k := false])
    case Delete(sid) =>
      var k := First(UsedSid(t, sid));
      if k == Size(t) then t else t.(used := t.used[k := false], priv := t.priv[k := false])
    case MarkAsPrivileged(sid) =>
      var k := First(UsedSid(t, sid));
      if k == Size(t) then t else t.(priv := t.priv[k := true], marked := t.marked[k := false])
    case MarkToDelete => t.(marked := MarkedUnprivileged(t))
    case GetNextDelete =>
      var k := First(t.marked);
      if k == Size(t) then t else t.(used := t.used[k := false], marked := t.marked[k := false])
  }

  function MarkedUnprivileged(t: Sessions): (s: seq<bool>)
    ensures |s| == Size(t) && forall i | 0 <= i < |s| :: s[i] == if t.priv[i] then t.marked[i] else t.used[i]
  {
    seq(Size(t), i requires 0 <= i < Size(t) => if t.priv[i] then t.marked[i] else t.used[i])
  }

  function TripleOf(t: Sessions, sid: nat): nat {
    var k := First(LiveSid(t, sid));
    if k < Size(t) then t.triple[k] else UNUSED_TABLE_ENTRY_VALUE
  }

  function SidOf(t: Sessions, triple: nat): nat {
    var k := First(LiveTriple(t, triple));
    if k < Size(t) then t.sid[k] else UNUSED_SESSION_ENTRY_VALUE
  }

  /** The reply to a next-delete request. */
  function NextDelete(t: Sessions): nat {
    var k := First(t.marked);
    if k < Size(t) then t.sid[k] else UNUSED_SESSION_ENTRY_VALUE
  }

  class TcpAgency {
    const size: nat
    const tripleList: array<nat>
    const sessionIdList: array<nat>
    const usedRows: array<bool>
    const rowsToDelete: array<bool>
    const privilegedRows: array<bool>

    ghost predicate Valid() {
      && tripleList.Length == sessionIdList.Length == usedRows.Length == rowsToDelete.Length == privilegedRows.Length
          == size
      && tripleList != sessionIdList && usedRows != rowsToDelete && usedRows != privilegedRows
      && rowsToDelete != privilegedRows
    }

    ghost function View(): Sessions
      reads tripleList, sessionIdList, usedRows, rowsToDelete, privilegedRows
      requires Valid()
    {
      Rows(tripleList[..], sessionIdList[..], usedRows[..], rowsToDelete[..], privilegedRows[..])
    }

    constructor (size: nat)
      ensures Valid() && this.size == size
      ensures fresh(tripleList) && fresh(sessionIdList) && fresh(usedRows) && fresh(rowsToDelete)
              && fresh(privilegedRows)
      ensures forall i | 0 <= i < size :: !usedRows[i] && !rowsToDelete[i] && !privilegedRows[i]
    {
      this.size := size;
      tripleList, sessionIdList := new nat[size](_ => 0), new nat[size](_ => 0);
      usedRows, rowsToDelete, privilegedRows := new bool[size](_ => false), new bool[size](_ => false),
          new bool[size](_ => false);
    }

    method FindLiveSid(sid: nat) returns (i: nat)
      requires Valid()
      ensures i == First(LiveSid(View(), sid))
    {
      i := 0;
      while i < size
        invariant i <= size && forall j | 0 <= j < i :: !LiveSid(View(), sid)[j]
      {
        if sessionIdList[i] == sid && usedRows[i] && !rowsToDelete[i] {
          break;
        }
        i := i + 1;
      }
      FirstIs(LiveSid(View(), sid), i);
    }

    method FindUsedSid(sid: nat) returns (i: nat)
      requires Valid()
      ensures i == First(UsedSid(View(), sid))
    {
      i := 0;
      while i < size
        invariant i <= size && forall j | 0 <= j < i :: !UsedSid(View(), sid)[j]
      {
        if sessionIdList[i] == sid && usedRows[i] {
          break;
        }
        i := i + 1;
      }
      FirstIs(UsedSid(View(), sid), i);
    }

    method GetTripleFromSid(sid: nat) returns (ret: nat)
      requires Valid()
      ensures ret == TripleOf(View(), sid)
    {
      var i := FindLiveSid(sid);
      ret := if i < size then tripleList[i] else UNUSED_TABLE_ENTRY_VALUE;
    }

    method GetSidFromTriple(triple: nat) returns (ret: nat)
      requires Valid()
      ensures ret == SidOf(View(), triple)
    {
      ret := UNUSED_SESSION_ENTRY_VALUE;
      var i := 0;
      while i < size
        invariant i <= size && forall j | 0 <= j < i :: !LiveTriple(View(), triple)[j]
        invariant ret == UNUSED_SESSION_ENTRY_VALUE
      {
        if tripleList[i] == triple && usedRows[i] && !rowsToDelete[i] {
          ret := sessionIdList[i];
          break;
        }
        i := i + 1;
      }
      FirstIs(LiveTriple(View(), triple), i);
    }

    /** A session id that is live is skipped; otherwise the first unused row is taken. `stored` is false if there
        is no such row or the id is known. */
    method AddNewTriple(sid: nat, triple: nat) returns (stored: bool)
      requires Valid()
      modifies tripleList, sessionIdList, usedRows, privilegedRows
      ensures View() == After(old(View()), Add(sid, triple))
      ensures stored <==> First(LiveSid(old(View()), sid)) == size && First(Unused(old(View()))) < size
    {
      stored := false;
      var known := FindLiveSid(sid);
      if known < size {
        return;
      }
      var i := 0;
      while i < size
        invariant i <= size && !stored && View() == old(View())
        invariant forall j | 0 <= j < i :: !Unused(View())[j]
      {
        if !usedRows[i] {
          FirstIs(Unused(View()), i);
          sessionIdList[i] := sid;
          tripleList[i] := triple;
          usedRows[i] := true;
          privilegedRows[i] := false;
          stored := true;
          return;
        }
        i := i + 1;
      }
      FirstIs(Unused(View()), i);
    }

    /** The first used row with the id is freed, and the cache invalidation is notified. */
    method DeleteEntryBySid(sid: nat) returns (inval: bool)
      requires Valid()
      modifies usedRows, privilegedRows
      ensures View() == After(old(View()), Delete(sid))
      ensures inval <==> First(UsedSid(old(View()), sid)) < size
    {
      var i := FindUsedSid(sid);
      inval := i < size;
      if inval {
        usedRows[i] := false;
        privilegedRows[i] := false;
      }
    }

    method MarkAsPriv(sid: nat)
      requires Valid()
      modifies privilegedRows, rowsToDelete
      ensures View() == After(old(View()), MarkAsPrivileged(sid))
    {
      var i := FindUsedSid(sid);
      if i < size {
        privilegedRows[i] := true;
        rowsToDelete[i] := false;
      }
    }

    method MarkToDelUnpriv()
      requires Valid()
      modifies rowsToDelete
      ensures View() == After(old(View()), MarkToDelete)
    {
      ghost var t := View();
      for i := 0 to size
        invariant forall j | 0 <= j < i :: rowsToDelete[j] == MarkedUnprivileged(t)[j]
        invariant forall j | i <= j < size :: rowsToDelete[j] == t.marked[j]
      {
        if !privilegedRows[i] {
          rowsToDelete[i] := usedRows[i];
        }
      }
    }

    method GetNextDelRow() returns (ret: nat)
      requires Valid()
      modifies usedRows, rowsToDelete
      ensures View() == After(old(View()), GetNextDelete) && ret == NextDelete(old(View()))
    {
      ret := UNUSED_SESSION_ENTRY_VALUE;
      var i := 0;
      while i < size
        invariant i <= size && View() == old(View()) && ret == UNUSED_SESSION_ENTRY_VALUE
        invariant forall j | 0 <= j < i :: !rowsToDelete[j]
      {
        if rowsToDelete[i] {
          FirstIs(View().marked, i);
          ret := sessionIdList[i];
          usedRows[i] := false;
          rowsToDelete[i] := false;
          return;
        }
        i := i + 1;
      }
      FirstIs(View().marked, i);
    }
  }
}
