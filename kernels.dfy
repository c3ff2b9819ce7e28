/** The scalar distance kernels of the benchmark, and the Hamming kernel that
    uses the processor's population count. Each computes its distance
    between two byte vectors of the same length in a 32-bit `int`. */
module Kernels {
  import opened CTypes
  import opened Bits
  import opened Distances

  /** `dist_l1`: the L1 distance, one coordinate at a time. */
  method DistL1(p: seq<byte>, q: seq<byte>) returns (r: int)
    requires |p| == |q|
    requires 255 * |p| <= INT_MAX
    ensures r == L1Dist(p, q)
  {
    r := 0;
    var d := 0;
    while d < |p|
      invariant 0 <= d <= |p|
      invariant r == L1Dist(p[..d], q[..d])
    {
      SumLast(L1Term, p, q, d);
      L1Facts(p[..d + 1], q[..d + 1]);
      r := IntAdd(r, Abs(q[d] as int - p[d] as int));
      d := d + 1;
    }
    assert p[..d] == p && q[..d] == q;
  }

  /** `dist_l2`: the squared L2 distance, one coordinate at a time. */
  method DistL2(p: seq<byte>, q: seq<byte>) returns (r: int)
    requires |p| == |q|
    requires 255 * 255 * |p| <= INT_MAX
    ensures r == L2Dist(p, q)
  {
    r := 0;
    var d := 0;
    while d < |p|
      invariant 0 <= d <= |p|
      invariant r == L2Dist(p[..d], q[..d])
    {
      SumLast(L2Term, p, q, d);
      L2Facts(p[..d + 1], q[..d + 1]);
      var e := q[d] as int - p[d] as int;
      r := IntAdd(r, Square(e));
      d := d + 1;
    }
    assert p[..d] == p && q[..d] == q;
  }

  /** The four bytes of `v` from index `i`, read as one word. */
  function WordAt(v: seq<byte>, i: nat): (r: bv32)
    requires i + 4 <= |v|
    ensures r & 0xFF == ToBits(v[i]) as bv32
    ensures (r >> 8) & 0xFF == ToBits(v[i + 1]) as bv32
    ensures (r >> 16) & 0xFF == ToBits(v[i + 2]) as bv32
    ensures r >> 24 == ToBits(v[i + 3]) as bv32
  {
    Word(ToBits(v[i]), ToBits(v[i + 1]), ToBits(v[i + 2]), ToBits(v[i + 3]))
  }

  /** The Hamming distance grows, word by word, by the set bits of the
      exclusive or of the two words, and stays within 8 per coordinate. */
  lemma HammingWord(p: seq<byte>, q: seq<byte>, i: nat)
    requires |p| == |q| && i + 4 <= |p|
    ensures HammingDist(p[..i + 4], q[..i + 4]) ==
            HammingDist(p[..i], q[..i]) + BitCount(WordAt(p, i) ^ WordAt(q, i))
    ensures 0 <= HammingDist(p[..i + 4], q[..i + 4]) <= 8 * (i + 4)
  {
    XorWord(ToBits(p[i]), ToBits(p[i + 1]), ToBits(p[i + 2]), ToBits(p[i + 3]),
            ToBits(q[i]), ToBits(q[i + 1]), ToBits(q[i + 2]), ToBits(q[i + 3]));
    SumLast(HammingTerm, p, q, i);
    SumLast(HammingTerm, p, q, i + 1);
    SumLast(HammingTerm, p, q, i + 2);
    SumLast(HammingTerm, p, q, i + 3);
    HammingFacts(p[..i + 4], q[..i + 4]);
  }

  /** `dist_hamming`: the Hamming distance, a 32-bit word at a time, with
      the software `popcount`. */
  method DistHamming(p: seq<byte>, q: seq<byte>) returns (r: int)
    requires |p| == |q|
    requires |p| % 4 == 0
    requires 8 * |p| <= INT_MAX
    ensures r == HammingDist(p, q)
  {
    r := 0;
    var k := 0;
    while k < |p| / 4
      invariant 0 <= k <= |p| / 4
      invariant r == HammingDist(p[..4 * k], q[..4 * k])
    {
      assert 4 * k + 4 <= |p|;
      HammingWord(p, q, 4 * k);
      var c := Popcount(WordAt(p, 4 * k) ^ WordAt(q, 4 * k));
      r := IntAdd(r, c);
      k := k + 1;
    }
    assert p[..4 * k] == p && q[..4 * k] == q;
  }

  /** `dist_hamming_sse`: as `DistHamming`, with the processor's population
      count instruction `_mm_popcnt_u32`, which returns `BitCount`. */
  method DistHammingSse(p: seq<byte>, q: seq<byte>) returns (r: int)
    requires |p| == |q|
    requires |p| % 4 == 0
    requires 8 * |p| <= INT_MAX
    ensures r == HammingDist(p, q)
  {
    r := 0;
    var k := 0;
    while k < |p| / 4
      invariant 0 <= k <= |p| / 4
      invariant r == HammingDist(p[..4 * k], q[..4 * k])
    {
      assert 4 * k + 4 <= |p|;
      HammingWord(p, q, 4 * k);
      r := IntAdd(r, BitCount(WordAt(p, 4 * k) ^ WordAt(q, 4 * k)));
      k := k + 1;
    }
    assert p[..4 * k] == p && q[..4 * k] == q;
  }
}
