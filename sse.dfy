/** The SSE kernels of the benchmark. A 128-bit register is seen as four
    32-bit lanes, each held as its unsigned value. */
module Sse {
  import opened CTypes
  import opened Distances

  datatype M128 = M128(i0: int, i1: int, i2: int, i3: int)

  /** The number of values a 32-bit lane holds. */
  const LANE: int := 0x1_0000_0000

  /** The sum of the absolute differences of the bytes of `a` and `b`,
      summed from the front as `_mm_sad_epu8` does. */
  function SadSum(a: seq<byte>, b: seq<byte>): int
    requires |a| == |b|
    decreases |a|
  {
    if |a| == 0 then 0 else Abs(a[0] as int - b[0] as int) + SadSum(a[1..], b[1..])
  }

  /** Summing the absolute differences from the front gives the L1 distance. */
  lemma {:induction false} SadIsL1(a: seq<byte>, b: seq<byte>)
    requires |a| == |b|
    ensures SadSum(a, b) == L1Dist(a, b)
    decreases |a|
  {
    if |a| != 0 {
      SadIsL1(a[1..], b[1..]);
      SumAppend(L1Term, [a[0]], [b[0]], a[1..], b[1..]);
      assert [a[0]] + a[1..] == a;
      assert [b[0]] + b[1..] == b;
      assert [a[0]][..0] == [] && [b[0]][..0] == [];
    }
  }

  /** `_mm_sad_epu8`: for each 8-byte half of two 16-byte registers, the L1
      distance of that half, in the low lane of the half; the high lanes are
      zero. */
  function Sad(a: seq<byte>, b: seq<byte>): (r: M128)
    requires |a| == 16 && |b| == 16
    ensures r.i0 == L1Dist(a[..8], b[..8]) && r.i2 == L1Dist(a[8..], b[8..])
    ensures r.i1 == 0 && r.i3 == 0
    ensures 0 <= r.i0 <= 8 * 255 && 0 <= r.i2 <= 8 * 255
  {
    SadIsL1(a[..8], b[..8]);
    SadIsL1(a[8..], b[8..]);
    L1Facts(a[..8], b[..8]);
    L1Facts(a[8..], b[8..]);
    M128(SadSum(a[..8], b[..8]), 0, SadSum(a[8..], b[8..]), 0)
  }

  /** `_mm_add_epi32`: lane-wise addition modulo 2^32. */
  function AddEpi32(x: M128, y: M128): (r: M128)
    ensures 0 <= r.i0 < LANE && 0 <= r.i1 < LANE && 0 <= r.i2 < LANE && 0 <= r.i3 < LANE
    ensures 0 <= x.i0 && 0 <= y.i0 && x.i0 + y.i0 < LANE ==> r.i0 == x.i0 + y.i0
    ensures 0 <= x.i1 && 0 <= y.i1 && x.i1 + y.i1 < LANE ==> r.i1 == x.i1 + y.i1
    ensures 0 <= x.i2 && 0 <= y.i2 && x.i2 + y.i2 < LANE ==> r.i2 == x.i2 + y.i2
    ensures 0 <= x.i3 && 0 <= y.i3 && x.i3 + y.i3 < LANE ==> r.i3 == x.i3 + y.i3
  {
    M128((x.i0 + y.i0) % LANE, (x.i1 + y.i1) % LANE, (x.i2 + y.i2) % LANE, (x.i3 + y.i3) % LANE)
  }

  /** A lane read as a signed 32-bit integer (`m128i_i32`). */
  function Signed32(u: int): (r: int)
    requires 0 <= u < LANE
    ensures INT_MIN <= r <= INT_MAX
    ensures r == u <==> u <= INT_MAX
  {
    if u <= INT_MAX then u else u - LANE
  }

  /** One 16-byte chunk adds its two SAD lanes to the L1 distance. */
  lemma L1Chunk(p: seq<byte>, q: seq<byte>, d: nat)
    requires |p| == |q| && d + 16 <= |p|
    ensures var s := Sad(p[d..d + 16], q[d..d + 16]);
            L1Dist(p[..d + 16], q[..d + 16]) == L1Dist(p[..d], q[..d]) + s.i0 + s.i2
    ensures L1Dist(p[..d + 16], q[..d + 16]) <= 255 * (d + 16)
  {
    var a, b := p[d..d + 16], q[d..d + 16];
    var s := Sad(a, b);
    assert p[..d + 16] == p[..d] + a[..8] + a[8..];
    assert q[..d + 16] == q[..d] + b[..8] + b[8..];
    SumAppend(L1Term, p[..d], q[..d], a[..8], b[..8]);
    SumAppend(L1Term, p[..d] + a[..8], q[..d] + b[..8], a[8..], b[8..]);
    assert L1Dist(p[..d + 16], q[..d + 16]) == L1Dist(p[..d], q[..d]) + s.i0 + s.i2;
    L1Facts(p[..d + 16], q[..d + 16]);
  }

  /** `dist_l1_sse`: the L1 distance, 16 bytes at a time, accumulating the
      two SAD lanes of every chunk in lanes 0 and 2 of a register and adding
      those two lanes at the end. */
  method DistL1Sse(p: seq<byte>, q: seq<byte>) returns (r: int)
    requires |p| == |q|
    requires |p| % 16 == 0
    requires 255 * |p| <= INT_MAX
    ensures r == L1Dist(p, q)
  {
    var t := M128(0, 0, 0, 0);
    var d := 0;
    while d < |p|
      invariant 0 <= d <= |p| && d % 16 == 0
      invariant 0 <= t.i0 && 0 <= t.i2 && t.i0 + t.i2 <= 255 * d
      invariant t.i0 + t.i2 == L1Dist(p[..d], q[..d])
    {
      L1Chunk(p, q, d);
      t := AddEpi32(t, Sad(p[d..d + 16], q[d..d + 16]));
      d := d + 16;
    }
    assert p[..d] == p && q[..d] == q;
    r := IntAdd(Signed32(t.i0), Signed32(t.i2));
  }

  /** `dist_l2_sse`: not implemented; it always fails with a domain error. */
  method DistL2Sse(p: seq<byte>, q: seq<byte>) returns (r: Result<int>)
    ensures r == Failure("unimplemented function!")
  {
    r := Failure("unimplemented function!");
  }
}
