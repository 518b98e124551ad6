/** Port vectors as values: the 32 bits of `PortBits` behind a constructor, with the operations that the port FSM uses
    and their laws. A position is itself a vector; one of 32 or more shifts the bit out. */
module PortVectors {
  import B = PortBits

  datatype Vector = Vector(bits: bv32)

  const ZERO: Vector := Vector(0)

  /** `1 << p`. */
  function At(p: Vector): Vector {
    if p.bits < 32 then Vector(B.At(p.bits)) else ZERO
  }

  /** The result of `getRightmostBitPos`. */
  function Lowest(x: Vector): Vector {
    if x.bits == 0 then ZERO else Vector(B.Lowest(x.bits))
  }

  function Cleared(x: Vector, p: Vector): Vector {
    Vector(x.bits & !At(p).bits)
  }

  function Opened(x: Vector, p: Vector): Vector {
    Vector(x.bits | At(p).bits)
  }

  function Union(x: Vector, y: Vector): Vector {
    Vector(x.bits | y.bits)
  }

  /** The bits to open: in the target and not in the record. */
  function Missing(record: Vector, target: Vector): Vector {
    Vector(target.bits & !record.bits)
  }

  /** A cast to 16 bits. */
  function Low16(v: Vector): Vector {
    Vector(v.bits & 0xFFFF)
  }

  lemma Low16Is(v: Vector)
    ensures Low16(v).bits == v.bits & 0xFFFF
  {
  }

  predicate Bit(x: Vector, p: Vector) {
    B.Bit(x.bits, p.bits)
  }

  /** Every bit of `x` is in `y`. */
  predicate Within(x: Vector, y: Vector) {
    x.bits & !y.bits == 0
  }

  lemma LowestIs(x: Vector)
    ensures x != ZERO ==> x.bits != 0 && Lowest(x) == Vector(B.Lowest(x.bits)) && B.IsLowest(x.bits, Lowest(x).bits)
  {
    hide B.Lowest, B.IsLowest;
    if x.bits == 0 {
      assert x == ZERO;
    }
  }

  function Wrapped(ps: seq<bv32>): (r: seq<Vector>)
    ensures |r| == |ps| && forall k | 0 <= k < |ps| :: r[k] == Vector(ps[k])
  {
    if ps == [] then [] else [Vector(ps[0])] + Wrapped(ps[1..])
  }

  /** The positions of the set bits, in ascending order. */
  function Ports(x: Vector): seq<Vector> {
    Wrapped(B.Ports(x.bits))
  }

  lemma NoPorts()
    ensures Ports(ZERO) == []
  {
  }

  /** Listing the lowest bit first. */
  lemma PortsNext(x: Vector)
    requires x != ZERO
    ensures Bit(x, Lowest(x)) && Cleared(x, Lowest(x)).bits < x.bits
    ensures Ports(x) == [Lowest(x)] + Ports(Cleared(x, Lowest(x)))
  {
    hide *;
    LowestIs(x);
    B.LowestIsBit(x.bits);
    ClearedIs(x, Lowest(x));
    BitIs(x, Lowest(x));
    PortsAre(x);
    PortsAre(Cleared(x, Lowest(x)));
    RawPortsNext(x.bits);
    WrappedNext(B.Lowest(x.bits), B.Ports(B.Cleared(x.bits, B.Lowest(x.bits))));
  }

  lemma RawPortsNext(x: bv32)
    requires x != 0
    ensures B.Lowest(x) < 32 && B.Ports(x) == [B.Lowest(x)] + B.Ports(B.Cleared(x, B.Lowest(x)))
  {
    hide B.Lowest, B.Cleared, B.IsLowest, B.At;
    B.LowestBelow(x);
  }

  lemma WrappedNext(p: bv32, ps: seq<bv32>)
    ensures Wrapped([p] + ps) == [Vector(p)] + Wrapped(ps)
  {
    assert ([p] + ps)[1..] == ps;
  }

  lemma PortsAre(x: Vector)
    ensures Ports(x) == Wrapped(B.Ports(x.bits))
  {
  }

  lemma BitIs(x: Vector, p: Vector)
    ensures Bit(x, p) == B.Bit(x.bits, p.bits)
  {
  }

  lemma ClearedIs(x: Vector, p: Vector)
    requires p.bits < 32
    ensures Cleared(x, p) == Vector(B.Cleared(x.bits, p.bits))
  {
    hide B.At;
  }

  // ---- Laws of the operations, bit by bit ----

  lemma WithinUnion(x: Vector, y: Vector, z: Vector)
    ensures Within(x, y) ==> Within(Union(x, z), Union(y, z))
    ensures Within(x, y) ==> Within(x, Union(y, z))
    ensures Within(z, Union(y, z)) && Within(ZERO, z)
  {
  }

  lemma WithinCleared(x: Vector, p: Vector, y: Vector)
    requires Within(x, y)
    ensures Within(Cleared(x, p), y) && Union(y, ZERO) == y
  {
    hide At;
  }

  lemma OpenedIsUnion(x: Vector, p: Vector)
    ensures Opened(x, p) == Union(x, At(p))
  {
    hide At;
  }

  /** As the FSM computes it. */
  lemma MissingComputed(record: Vector, target: Vector)
    ensures Missing(record, target) == Vector(record.bits ^ (record.bits | target.bits))
  {
    var x, t := record.bits, target.bits;
    MissingIs(x, t);
    assert Missing(record, target).bits == t & !x;
  }

  lemma LowestComputed(x: Vector, pos: bv32)
    requires pos == if x.bits == 0 then 0 else B.Lowest(x.bits)
    ensures Lowest(x) == Vector(pos)
  {
  }

  lemma MissingIs(x: bv32, t: bv32)
    ensures x ^ (x | t) == t & !x
  {
  }

  lemma NothingMissing(x: Vector, t: Vector, y: Vector)
    requires Missing(x, t) == ZERO && Within(x, y)
    ensures Within(t, y)
  {
    SubsetOf(x.bits, t.bits, y.bits);
  }

  lemma SubsetOf(x: bv32, t: bv32, y: bv32)
    requires t & !x == 0 && x & !y == 0
    ensures t & !y == 0
  {
  }

  lemma AllOpened(x: Vector, t: Vector)
    requires Missing(x, t) == ZERO
    ensures Union(x, t) == x
  {
  }

  lemma UnionZero(x: Vector)
    ensures Union(x, ZERO) == x
  {
  }

  lemma NoneMissing(x: Vector)
    ensures Missing(x, x) == ZERO
  {
  }

  /** Opening a missing bit leaves the other missing bits. */
  lemma OpenedLessMissing(x: Vector, t: Vector, p: Vector)
    ensures Missing(Opened(x, p), t) == Cleared(Missing(x, t), p)
  {
    hide At;
  }

  lemma OpenedKeepsUnion(x: Vector, t: Vector, p: Vector)
    requires Bit(Missing(x, t), p)
    ensures Union(Opened(x, p), t) == Union(x, t)
  {
    BitMask(t.bits & !x.bits, p.bits);
    hide B.At, B.Bit;
  }

  lemma BitMask(x: bv32, p: bv32)
    requires B.Bit(x, p)
    ensures p < 32 && x & B.At(p) == B.At(p)
  {
    hide B.At;
    B.OneBit(x, p);
  }
}
