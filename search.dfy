/** The nearest-neighbour search of the benchmark: a linear scan over a
    dictionary of `N` vectors of `D` bytes, stored one after the other, for
    the vector nearest to a query under one of the six distance kernels. */
module Search {
  import opened CTypes
  import opened Distances
  import opened Kernels
  import opened Sse

  /** The distance kernel the search calls. */
  datatype Metric = L1 | L1Sse | L2 | L2Sse | Hamming | HammingSse

  /** What a kernel demands of the dimension `D`: the SSE L1 kernel works
      on 16-byte chunks and the Hamming kernels on 4-byte words, and no
      distance may overflow the `int` that accumulates it. */
  predicate Admits(m: Metric, D: nat)
  {
    match m
    case L1 => 255 * D <= INT_MAX
    case L1Sse => D % 16 == 0 && 255 * D <= INT_MAX
    case L2 => 255 * 255 * D <= INT_MAX
    case L2Sse => true
    case Hamming | HammingSse => D % 4 == 0 && 8 * D <= INT_MAX
  }

  /** What the kernel of `m` returns for two vectors. */
  function Measure(m: Metric, p: seq<byte>, q: seq<byte>): Result<int>
    requires |p| == |q|
  {
    match m
    case L1 | L1Sse => Success(L1Dist(p, q))
    case L2 => Success(L2Dist(p, q))
    case L2Sse => Failure("unimplemented function!")
    case Hamming | HammingSse => Success(HammingDist(p, q))
  }

  /** Every kernel but the unimplemented one returns a distance that fits in
      an `int`, does not depend on the order of the vectors and is 0 exactly
      between equal vectors. */
  lemma MeasureFacts(m: Metric, p: seq<byte>, q: seq<byte>)
    requires |p| == |q| && Admits(m, |p|) && m != L2Sse
    ensures Measure(m, p, q).Success?
    ensures 0 <= Measure(m, p, q).value <= INT_MAX
    ensures Measure(m, p, q) == Measure(m, q, p)
    ensures Measure(m, p, q).value == 0 <==> p == q
  {
    match m
    case L1 | L1Sse => L1Facts(p, q);
    case L2 => L2Facts(p, q);
    case Hamming | HammingSse => HammingFacts(p, q);
  }

  /** Calls the kernel of `m`. */
  method Distance(m: Metric, p: seq<byte>, q: seq<byte>) returns (r: Result<int>)
    requires |p| == |q| && Admits(m, |p|)
    ensures r == Measure(m, p, q)
  {
    var d: int;
    match m {
      case L1 => d := DistL1(p, q);
      case L1Sse => d := DistL1Sse(p, q);
      case L2 => d := DistL2(p, q);
      case L2Sse => r := DistL2Sse(p, q); return;
      case Hamming => d := DistHamming(p, q);
      case HammingSse => d := DistHammingSse(p, q);
    }
    r := Success(d);
  }

  /** Row `n` of a dictionary of `N` rows of `D` bytes ends within it. */
  lemma RowBound(n: nat, N: nat, D: nat)
    requires n < N
    ensures n * D + D <= N * D
  {
    MulNonNeg(N - n - 1, D);
  }

  /** Row `n` of a dictionary of `N` rows of `D` bytes. */
  function Row(v: seq<byte>, N: nat, D: nat, n: nat): (r: seq<byte>)
    requires |v| == N * D && n < N
    ensures |r| == D && n * D + D <= |v|
    ensures forall k :: 0 <= k < D ==> r[k] == v[n * D + k]
  {
    RowBound(n, N, D);
    v[n * D..n * D + D]
  }

  /** The distances from every row of the dictionary to the query. */
  function RowDists(m: Metric, v: seq<byte>, query: seq<byte>, N: nat, D: nat): (r: seq<int>)
    requires |v| == N * D && |query| == D && m != L2Sse
    ensures |r| == N
  {
    seq(N, n requires 0 <= n < N => Measure(m, Row(v, N, D, n), query).value)
  }

  /** `n` is the last index at which `ds` takes its least value `d`. */
  predicate IsLastMin(ds: seq<int>, n: int, d: int)
  {
    && 0 <= n < |ds|
    && ds[n] == d
    && (forall j :: 0 <= j < |ds| ==> d <= ds[j])
    && (forall j :: n < j < |ds| ==> d < ds[j])
  }

  /** At most one pair of an index and a distance is the last minimum, so
      the specification of `Search` fixes its result. */
  lemma LastMinUnique(ds: seq<int>, n1: int, d1: int, n2: int, d2: int)
    requires IsLastMin(ds, n1, d1) && IsLastMin(ds, n2, d2)
    ensures n1 == n2 && d1 == d2
  {
    assert d1 <= ds[n2] && d2 <= ds[n1];
  }

  /** Of two rows at the same distance, the earlier one is never the
      result. */
  lemma TieGoesToLast(ds: seq<int>, i: int, j: int, n: int, d: int)
    requires 0 <= i < j < |ds| && ds[i] == ds[j]
    requires IsLastMin(ds, n, d)
    ensures n != i
  {
  }

  /** Scanning one more distance keeps the last minimum of the prefix
      scanned: the current best survives only a strictly larger distance. */
  lemma LastMinStep(ds: seq<int>, k: nat, n: int, d: int)
    requires k < |ds|
    requires k == 0 || IsLastMin(ds[..k], n, d)
    requires k == 0 ==> ds[k] <= d
    ensures d < ds[k] ==> IsLastMin(ds[..k + 1], n, d)
    ensures ds[k] <= d ==> IsLastMin(ds[..k + 1], k, ds[k])
  {
    assert forall j :: 0 <= j < k ==> ds[..k + 1][j] == ds[..k][j];
  }

  /** `search`: the distance of the nearest row of the dictionary to the
      query and the index of that row, the last one among equally near rows;
      `(INT_MAX, -1)` for an empty dictionary. A kernel that throws makes
      the search throw. */
  method Search(m: Metric, dict: array<byte>, query: array<byte>, N: nat, D: nat)
    returns (r: Result<(int, int)>)
    requires dict.Length == N * D && query.Length == D
    requires Admits(m, D)
    requires N * D <= 0x1_0000_0000 && N <= INT_MAX + 1
    ensures N == 0 ==> r == Success((INT_MAX, -1))
    ensures N != 0 && m == L2Sse ==> r == Failure("unimplemented function!")
    ensures N != 0 && m != L2Sse ==>
              r.Success? && IsLastMin(RowDists(m, dict[..], query[..], N, D), r.value.1, r.value.0)
  {
    var bestN := -1;
    var bestD := INT_MAX;
    for n := 0 to N
      invariant n == 0 ==> bestN == -1 && bestD == INT_MAX
      invariant n != 0 ==> m != L2Sse && IsLastMin(RowDists(m, dict[..], query[..], N, D)[..n], bestN, bestD)
    {
      RowBound(n, N, D);
      var res := Distance(m, dict[n * D..n * D + D], query[..]);
      if res.Failure? {
        return Failure(res.error);
      }
      var d := res.value;
      ghost var ds := RowDists(m, dict[..], query[..], N, D);
      assert ds[n] == d;
      MeasureFacts(m, dict[n * D..n * D + D], query[..]);
      LastMinStep(ds, n, bestN, bestD);
      if bestD < d {
        continue;
      }
      bestN := n;
      bestD := d;
    }
    if N != 0 {
      assert RowDists(m, dict[..], query[..], N, D)[..N] == RowDists(m, dict[..], query[..], N, D);
    }
    r := Success((bestD, bestN));
  }
}
