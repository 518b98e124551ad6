/** Bit positions of 32-bit port vectors, and the loop that finds the lowest set bit. */
module PortBits {
  type Vector = bv32

  /** The vector with only bit `p` set. */
  function At(p: Vector): Vector
    requires p < 32
  {
    1 << p
  }

  predicate Bit(x: Vector, p: Vector) {
    p < 32 && x & At(p) != 0
  }

  /** Bit `p` is set and no lower bit is. */
  predicate IsLowest(x: Vector, p: Vector) {
    p < 32 && x & At(p) != 0 && x & (At(p) - 1) == 0
  }

  /** The position of the lowest set bit, by search. */
  function Lowest(x: Vector): (p: Vector)
    requires x != 0
    ensures IsLowest(x, p)
    decreases x
  {
    if x & 1 != 0 then
      LowestZero(x);
      0
    else
      HalfLess(x);
      Above(x, Lowest(x >> 1))
  }

  lemma LowestZero(x: Vector)
    requires x & 1 != 0
    ensures IsLowest(x, 0)
  {
  }

  lemma HalfLess(x: Vector)
    requires x != 0 && x & 1 == 0
    ensures x >> 1 < x && x >> 1 != 0
  {
  }

  /** From the position in `x / 2` to that in the even `x`. */
  function Above(x: Vector, q: Vector): (p: Vector)
    requires x != 0 && x & 1 == 0 && IsLowest(x >> 1, q)
    ensures IsLowest(x, p)
  {
    q + 1
  }

  /** `num & -num` keeps the lowest set bit alone. */
  lemma IsolatesLowest(x: Vector)
    requires x != 0
    ensures x & -x == At(Lowest(x))
  {
    Isolated(x, Lowest(x));
  }

  lemma Isolated(x: Vector, p: Vector)
    requires IsLowest(x, p)
    ensures x & -x == At(p)
  {
  }

  lemma ShiftDown(p: Vector)
    requires p < 32
    ensures At(p) <= 1 <==> p == 0
    ensures p > 0 ==> At(p) >> 1 == At(p - 1)
  {
  }

  ghost function Height(p: Vector): nat {
    p as nat
  }

  /** One turn of the loop. */
  lemma StepUp(pos: Vector, rest: Vector)
    requires 0 < rest < 32
    ensures (pos + 1) + (rest - 1) == pos + rest && rest - 1 < 32
    ensures Height(rest - 1) == Height(rest) - 1
  {
  }

  lemma HeightBound(p: Vector)
    requires p < 32
    ensures Height(p) < 32
  {
  }

  lemma FromZero(p: Vector)
    ensures 0 + p == p
  {
  }

  lemma EndsAt(pos: Vector, rest: Vector)
    ensures rest == 0 ==> pos + rest == pos
  {
  }

  /** The loop's invariant: `rest` more turns lead to the lowest bit; the zero vector takes none. */
  ghost predicate Turning(num: Vector, oneHot: Vector, pos: Vector, rest: Vector, i: nat) {
    if num == 0 then oneHot == 0 && pos == 0 && i == 0
    else rest < 32 && pos + rest == Lowest(num) && oneHot == At(rest) && Height(rest) + i == Height(Lowest(num))
  }

  lemma TurnStarts(num: Vector)
    ensures Turning(num, num & -num, 0, if num == 0 then 0 else Lowest(num), 0)
  {
    hide Lowest, At, IsLowest, Height;
    if num == 0 {
      NegZero();
    } else {
      IsolatesLowest(num);
      LowestBelow(num);
      FromZero(Lowest(num));
    }
  }

  lemma TurnContinues(num: Vector, oneHot: Vector, pos: Vector, rest: Vector, i: nat)
    requires Turning(num, oneHot, pos, rest, i) && oneHot > 1
    ensures Turning(num, oneHot >> 1, pos + 1, rest - 1, i + 1) && i + 1 < 32
  {
    hide Lowest, At, IsLowest, Height;
    ShiftDown(rest);
    StepUp(pos, rest);
    LowestBelow(num);
    HeightBound(Lowest(num));
  }

  lemma TurnEnds(num: Vector, oneHot: Vector, pos: Vector, rest: Vector, i: nat)
    requires Turning(num, oneHot, pos, rest, i) && oneHot <= 1
    ensures pos == if num == 0 then 0 else Lowest(num)
  {
    hide Lowest, At, IsLowest, Height;
    if num != 0 {
      ShiftDown(rest);
      EndsAt(pos, rest);
    }
  }

  /** `getRightmostBitPos`: position 0 also for the zero vector. */
  method GetRightmostBitPos(num: Vector) returns (pos: Vector)
    ensures pos == if num == 0 then 0 else Lowest(num)
  {
    hide *;
    TurnStarts(num);
    var oneHot := num & -num;
    ghost var rest: Vector := if num == 0 then 0 else Lowest(num);
    pos := 0;
    for i := 0 to 32
      invariant Turning(num, oneHot, pos, rest, i) && i < 32
    {
      if oneHot <= 1 {
        TurnEnds(num, oneHot, pos, rest, i);
        return;
      }
      TurnContinues(num, oneHot, pos, rest, i);
      rest := rest - 1;
      pos := pos + 1;
      oneHot := oneHot >> 1;
    }
  }

  lemma LowestBelow(x: Vector)
    requires x != 0
    ensures Lowest(x) < 32
  {
  }

  lemma NegZero()
    ensures (0 as Vector) & -(0 as Vector) == 0
  {
  }

  function Cleared(x: Vector, p: Vector): Vector
    requires p < 32
  {
    x & !At(p)
  }

  lemma ClearingShrinks(x: Vector, p: Vector)
    requires p < 32 && x & At(p) != 0
    ensures Cleared(x, p) < x
  {
  }

  /** The positions of the set bits in ascending order. */
  function Ports(x: Vector): (s: seq<Vector>)
    decreases x
  {
    hide At, Cleared, Lowest, IsLowest;
    if x == 0 then [] else
      LowestIsBit(x);
      [Lowest(x)] + Ports(Cleared(x, Lowest(x)))
  }

  lemma BitOfCleared(x: Vector, p: Vector, q: Vector)
    requires p < 32 && q < 32
    ensures Bit(Cleared(x, p), q) <==> Bit(x, q) && q != p
  {
    hide *;
    if p == q {
      ClearedBit(x, p);
    } else {
      OtherBit(x, p, q);
    }
  }

  lemma ClearedBit(x: Vector, p: Vector)
    requires p < 32
    ensures !Bit(Cleared(x, p), p)
  {
    hide *;
    BitIs(Cleared(x, p), p);
    ByMask(x, p);
    MaskGone(x, At(p));
  }

  lemma OtherBit(x: Vector, p: Vector, q: Vector)
    requires p < 32 && q < 32 && p != q
    ensures Bit(Cleared(x, p), q) <==> Bit(x, q)
  {
    hide *;
    SameMasked(x, p, q);
    BitFromMask(Cleared(x, p), x, q);
  }

  lemma SameMasked(x: Vector, p: Vector, q: Vector)
    requires p < 32 && q < 32 && p != q
    ensures Cleared(x, p) & At(q) == x & At(q)
  {
    hide *;
    AtDistinct(p, q);
    ByMask(x, p);
    MaskStays(x, At(p), At(q));
  }

  lemma BitFromMask(y: Vector, x: Vector, q: Vector)
    requires q < 32 && y & At(q) == x & At(q)
    ensures Bit(y, q) <==> Bit(x, q)
  {
    hide At;
  }

  lemma BitIs(x: Vector, q: Vector)
    requires q < 32
    ensures Bit(x, q) <==> x & At(q) != 0
  {
    hide At;
  }

  lemma OneBit(x: Vector, p: Vector)
    requires p < 32 && x & At(p) != 0
    ensures x & At(p) == At(p)
  {
  }

  lemma ByMask(x: Vector, p: Vector)
    requires p < 32
    ensures Cleared(x, p) == x & !At(p)
  {
    hide At;
  }

  lemma AtDistinct(p: Vector, q: Vector)
    requires p < 32 && q < 32 && p != q
    ensures At(p) & At(q) == 0
  {
  }

  lemma MaskGone(x: Vector, m: Vector)
    ensures (x & !m) & m == 0
  {
  }

  lemma MaskStays(x: Vector, m: Vector, k: Vector)
    requires m & k == 0
    ensures (x & !m) & k == x & k
  {
  }

  lemma BelowLowest(x: Vector, p: Vector, q: Vector)
    requires IsLowest(x, p) && Bit(x, q)
    ensures p <= q
  {
  }

  /** Each set bit is listed, and only those. */
  lemma {:induction false} PortsAreBits(x: Vector, q: Vector)
    ensures q in Ports(x) <==> Bit(x, q)
    decreases x
  {
    hide At, Bit, Cleared, Lowest, IsLowest;
    if x == 0 {
      NoBits(q);
    } else {
      var p := Lowest(x);
      LowestIsBit(x);
      PortsAreBits(Cleared(x, p), q);
      if q < 32 {
        BitOfCleared(x, p, q);
      } else {
        BitInRange(x, q);
        BitInRange(Cleared(x, p), q);
      }
    }
  }

  lemma NoBits(q: Vector)
    ensures !Bit(0, q)
  {
  }

  lemma BitInRange(x: Vector, q: Vector)
    ensures Bit(x, q) ==> q < 32
  {
  }

  lemma LowestIsBit(x: Vector)
    requires x != 0
    ensures Lowest(x) < 32 && Bit(x, Lowest(x)) && Cleared(x, Lowest(x)) < x
  {
    hide *;
    IsBit(x, Lowest(x));
  }

  lemma IsBit(x: Vector, p: Vector)
    requires IsLowest(x, p)
    ensures p < 32 && Bit(x, p) && Cleared(x, p) < x
  {
    ClearingShrinks(x, p);
  }

  predicate Less(p: Vector, q: Vector) {
    p < q
  }

  ghost predicate Ascending(s: seq<Vector>) {
    forall i, j | 0 <= i < j < |s| :: Less(s[i], s[j])
  }

  ghost predicate AllAbove(s: seq<Vector>, p: Vector) {
    forall j | 0 <= j < |s| :: Less(p, s[j])
  }

  lemma ConsAscends(p: Vector, s: seq<Vector>)
    requires Ascending(s) && AllAbove(s, p)
    ensures Ascending([p] + s)
  {
    hide Less;
    var r := [p] + s;
    forall i, j | 0 <= i < j < |r|
      ensures Less(r[i], r[j])
    {
      if i == 0 {
        assert r[j] == s[j - 1];
      } else {
        assert r[i] == s[i - 1] && r[j] == s[j - 1];
      }
    }
  }

  /** The bits are listed in strictly ascending order. */
  lemma {:induction false} PortsAscend(x: Vector)
    ensures Ascending(Ports(x))
    decreases x
  {
    hide At, Bit, Cleared, Lowest, IsLowest;
    if x != 0 {
      LowestIsBit(x);
      var y := Cleared(x, Lowest(x));
      PortsAscend(y);
      AllAboveLowest(x);
      ConsAscends(Lowest(x), Ports(y));
      hide Ascending;
    }
  }

  lemma AllAboveLowest(x: Vector)
    requires x != 0 && Lowest(x) < 32
    ensures AllAbove(Ports(Cleared(x, Lowest(x))), Lowest(x))
  {
    hide At, Bit, Cleared, Lowest, IsLowest, Ports, Less;
    var s := Ports(Cleared(x, Lowest(x)));
    forall j | 0 <= j < |s|
      ensures Less(Lowest(x), s[j])
    {
      PortsAreBits(Cleared(x, Lowest(x)), s[j]);
      AboveLowest(x, s[j]);
    }
  }

  lemma AboveLowest(x: Vector, q: Vector)
    requires x != 0 && Lowest(x) < 32 && Bit(Cleared(x, Lowest(x)), q)
    ensures Less(Lowest(x), q)
  {
    hide At, Bit, Cleared, Lowest, IsLowest;
    BitInRange(Cleared(x, Lowest(x)), q);
    BitOfCleared(x, Lowest(x), q);
    LowestBound(x, q);
  }

  lemma LowestBound(x: Vector, q: Vector)
    requires x != 0 && Bit(x, q)
    ensures Lowest(x) <= q
  {
    hide Lowest;
    BelowLowest(x, Lowest(x), q);
  }
}
