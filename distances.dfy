/** The three distances the benchmark measures between two byte vectors of
    the same length, each a sum over the coordinates of a distance between
    two bytes, and their properties. */
module Distances {
  import opened CTypes
  import opened Bits

  /** The sum, over the coordinates `d`, of `f(p[d], q[d])`. */
  function Sum(f: (byte, byte) -> int, p: seq<byte>, q: seq<byte>): int
    requires |p| == |q|
    decreases |p|
  {
    if |p| == 0 then 0
    else Sum(f, p[..|p| - 1], q[..|q| - 1]) + f(p[|p| - 1], q[|q| - 1])
  }

  /** `f` is a distance between bytes that never exceeds `bound`: it is not
      negative, does not depend on the order of its arguments, and is 0
      exactly between equal bytes. */
  predicate IsByteMetric(f: (byte, byte) -> int, bound: int)
  {
    forall a, b :: 0 <= f(a, b) <= bound && f(a, b) == f(b, a) && (f(a, b) == 0 <==> a == b)
  }

  /** Adding one coordinate adds its term. */
  lemma SumLast(f: (byte, byte) -> int, p: seq<byte>, q: seq<byte>, j: nat)
    requires |p| == |q| && j < |p|
    ensures Sum(f, p[..j + 1], q[..j + 1]) == Sum(f, p[..j], q[..j]) + f(p[j], q[j])
  {
    assert p[..j + 1][..j] == p[..j];
    assert q[..j + 1][..j] == q[..j];
  }

  /** The sum over two concatenated pieces is the sum of the sums. */
  lemma {:induction false} SumAppend(f: (byte, byte) -> int, p: seq<byte>, q: seq<byte>, a: seq<byte>, b: seq<byte>)
    requires |p| == |q| && |a| == |b|
    ensures Sum(f, p + a, q + b) == Sum(f, p, q) + Sum(f, a, b)
    decreases |a|
  {
    if |a| != 0 {
      var n := |a| - 1;
      assert (p + a)[..|p + a| - 1] == p + a[..n];
      assert (q + b)[..|q + b| - 1] == q + b[..n];
      assert (p + a)[|p + a| - 1] == a[n];
      assert (q + b)[|q + b| - 1] == b[n];
      SumAppend(f, p, q, a[..n], b[..n]);
    } else {
      assert p + a == p && q + b == q;
    }
  }

  /** Summing a distance between bytes over the coordinates gives a distance
      between vectors: at most `bound` per coordinate, symmetric, and 0
      exactly between equal vectors. */
  lemma {:induction false} SumFacts(f: (byte, byte) -> int, p: seq<byte>, q: seq<byte>, bound: int)
    requires |p| == |q|
    requires IsByteMetric(f, bound)
    ensures 0 <= Sum(f, p, q) <= bound * |p|
    ensures Sum(f, p, q) == Sum(f, q, p)
    ensures Sum(f, p, q) == 0 <==> p == q
    decreases |p|
  {
    if |p| != 0 {
      var n := |p| - 1;
      SumFacts(f, p[..n], q[..n], bound);
      assert f(p[n], q[n]) == f(q[n], p[n]);
      assert bound * (n + 1) == bound * n + bound;
      assert p == p[..n] + [p[n]];
      assert q == q[..n] + [q[n]];
    }
  }

  // ---------------------------------------------------------------------
  // The terms of the three distances. The coordinates are unsigned and are
  // widened to `int` before they are subtracted.

  /** `|q[d] - p[d]|`, the term of the L1 distance. */
  function L1Term(pd: byte, qd: byte): int
  {
    Abs(qd as int - pd as int)
  }

  function Square(e: int): int
  {
    e * e
  }

  /** `(q[d] - p[d]) * (q[d] - p[d])`, the term of the squared L2 distance. */
  function L2Term(pd: byte, qd: byte): int
  {
    Square(qd as int - pd as int)
  }

  /** The number of bits in which two bytes differ, the term of the Hamming
      distance. */
  function HammingTerm(pd: byte, qd: byte): int
  {
    ByteDiff(ToBits(pd), ToBits(qd))
  }

  /** The L1 (Manhattan) distance: the sum of the absolute differences. */
  function L1Dist(p: seq<byte>, q: seq<byte>): int
    requires |p| == |q|
  {
    Sum(L1Term, p, q)
  }

  /** The squared L2 (Euclidean) distance: the sum of the squared
      differences. */
  function L2Dist(p: seq<byte>, q: seq<byte>): int
    requires |p| == |q|
  {
    Sum(L2Term, p, q)
  }

  /** The Hamming distance: the number of bits in which the vectors differ. */
  function HammingDist(p: seq<byte>, q: seq<byte>): int
    requires |p| == |q|
  {
    Sum(HammingTerm, p, q)
  }

  // ---------------------------------------------------------------------
  // Properties of the terms and of the distances.

  lemma MulNonNeg(a: int, b: int)
    requires 0 <= a && 0 <= b
    ensures 0 <= a * b
  {
  }

  /** The square of a number between 0 and 255 lies between 0 and 255 * 255
      and vanishes only at 0. */
  lemma SquareBound(e: int)
    requires 0 <= e <= 255
    ensures 0 <= Square(e) <= 255 * 255
    ensures Square(e) == 0 <==> e == 0
  {
    MulNonNeg(e, e);
    MulNonNeg(255 - e, e);
    MulNonNeg(255 - e, 255);
    if e != 0 {
      MulNonNeg(e - 1, e);
    }
  }

  /** The square of a difference of two bytes lies between 0 and 255 * 255,
      does not change with the sign, and vanishes only at 0. */
  lemma SquareFacts(e: int)
    requires -255 <= e <= 255
    ensures 0 <= Square(e) <= 255 * 255
    ensures Square(-e) == Square(e)
    ensures Square(e) == 0 <==> e == 0
  {
    assert Square(-e) == Square(e);
    if e < 0 {
      SquareBound(-e);
    } else {
      SquareBound(e);
    }
  }

  lemma L1TermMetric()
    ensures IsByteMetric(L1Term, 255)
  {
    forall a: byte, b: byte
      ensures 0 <= L1Term(a, b) <= 255 && L1Term(a, b) == L1Term(b, a)
      ensures L1Term(a, b) == 0 <==> a == b
    {
    }
  }

  lemma L2TermMetric()
    ensures IsByteMetric(L2Term, 255 * 255)
  {
    forall a: byte, b: byte
      ensures 0 <= L2Term(a, b) <= 255 * 255 && L2Term(a, b) == L2Term(b, a)
      ensures L2Term(a, b) == 0 <==> a == b
    {
      SquareFacts(b as int - a as int);
    }
  }

  lemma HammingTermMetric()
    ensures IsByteMetric(HammingTerm, 8)
  {
    forall a: byte, b: byte
      ensures 0 <= HammingTerm(a, b) <= 8 && HammingTerm(a, b) == HammingTerm(b, a)
      ensures HammingTerm(a, b) == 0 <==> a == b
    {
      ByteDiffFacts(ToBits(a), ToBits(b));
      BitsInjective(a, b);
    }
  }

  /** The L1 distance lies between 0 and 255 per coordinate, does not depend
      on the order of its arguments and is 0 exactly between equal vectors. */
  lemma L1Facts(p: seq<byte>, q: seq<byte>)
    requires |p| == |q|
    ensures 0 <= L1Dist(p, q) <= 255 * |p|
    ensures L1Dist(p, q) == L1Dist(q, p)
    ensures L1Dist(p, q) == 0 <==> p == q
  {
    L1TermMetric();
    SumFacts(L1Term, p, q, 255);
  }

  /** The squared L2 distance lies between 0 and 255 * 255 per coordinate,
      does not depend on the order of its arguments and is 0 exactly between
      equal vectors. */
  lemma L2Facts(p: seq<byte>, q: seq<byte>)
    requires |p| == |q|
    ensures 0 <= L2Dist(p, q) <= 255 * 255 * |p|
    ensures L2Dist(p, q) == L2Dist(q, p)
    ensures L2Dist(p, q) == 0 <==> p == q
  {
    L2TermMetric();
    SumFacts(L2Term, p, q, 255 * 255);
  }

  /** The Hamming distance is at most 8 per coordinate, does not depend on
      the order of its arguments and is 0 exactly between equal vectors. */
  lemma HammingFacts(p: seq<byte>, q: seq<byte>)
    requires |p| == |q|
    ensures 0 <= HammingDist(p, q) <= 8 * |p|
    ensures HammingDist(p, q) == HammingDist(q, p)
    ensures HammingDist(p, q) == 0 <==> p == q
  {
    HammingTermMetric();
    SumFacts(HammingTerm, p, q, 8);
  }

  /** A sum over four coordinates, written out. */
  lemma Sum4(f: (byte, byte) -> int, p: seq<byte>, q: seq<byte>)
    requires |p| == 4 && |q| == 4
    ensures Sum(f, p, q) == f(p[0], q[0]) + f(p[1], q[1]) + f(p[2], q[2]) + f(p[3], q[3])
  {
    SumLast(f, p, q, 0);
    SumLast(f, p, q, 1);
    SumLast(f, p, q, 2);
    SumLast(f, p, q, 3);
    assert p[..4] == p && q[..4] == q;
  }

  /** The three distances between `[0, 0, 0, 0]` and `[3, 4, 0, 0]`: the
      Hamming distance counts the two set bits of 3 and the one of 4. */
  lemma KnownValues()
    ensures L1Dist([0, 0, 0, 0], [3, 4, 0, 0]) == 7
    ensures L2Dist([0, 0, 0, 0], [3, 4, 0, 0]) == 25
    ensures HammingDist([0, 0, 0, 0], [3, 4, 0, 0]) == 3
  {
    var p: seq<byte>, q: seq<byte> := [0, 0, 0, 0], [3, 4, 0, 0];
    Sum4(L1Term, p, q);
    Sum4(L2Term, p, q);
    Sum4(HammingTerm, p, q);
    assert ToBits(1) == 1 && ToBits(2) == 2;
    assert ToBits(3) == 3 && ToBits(4) == 4;
    DiffByte(0, 3);
    DiffByte(0, 4);
    DiffByte(0, 0);
  }
}
