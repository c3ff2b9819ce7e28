# benchmark-distance in Dafny

A model of the distance kernels and the nearest-neighbour search of the
`benchmark-distance` program. The program compares `unsigned char` vectors
of `D` bytes under three distances. Each has a scalar kernel and a kernel
written with SSE instructions:

- the L1 (Manhattan) distance: `dist_l1` and `dist_l1_sse`;
- the squared L2 (Euclidean) distance: `dist_l2` and `dist_l2_sse`, whose
  SSE form only throws;
- the Hamming distance: `dist_hamming` with a divide-and-conquer `popcount`,
  and `dist_hamming_sse` with the `popcnt` instruction.

`search` scans a dictionary of `N` such vectors for the one nearest to a
query. The kernels are loops that accumulate into an `int`. They are
modelled as Dafny methods with loop invariants, each proved to return a
distance defined as a sum over the coordinates. The properties of those
distances are proved as lemmas.

Modules, leaf first:

- `Bits` (`bits.dfy`) counts the set bits of a 32-bit word. It proves that
  the five rounds of `popcount` compute that count. It also proves that the
  set bits of the exclusive or of two words, read from memory as four bytes
  each, are the bits in which those bytes differ.
- `CTypes` (`ctypes.dfy`) holds the C types: `unsigned char` as `byte`,
  32-bit `int` addition that must not overflow, a `Result` for a call that
  throws, and the bit pattern of a byte.
- `Distances` (`distances.dfy`) defines the three distances as sums of a
  per-coordinate term. It proves once, for any such term, the bounds,
  symmetry and "zero exactly between equal vectors".
- `Kernels` (`kernels.dfy`) holds the scalar kernels and both Hamming
  kernels.
- `Sse` (`sse.dfy`) holds the two SSE kernels. A 128-bit register is four
  32-bit lanes. `_mm_sad_epu8`, `_mm_add_epi32` and the signed lane read are
  modelled by their documented results.
- `Search` (`search.dfy`) holds the metric as an explicit choice among the
  six kernels, and the search over a dictionary held in an array.

The compile-time constants `D` (16) and `N` (1) of the program are
parameters here. A debug `assert` on `D` becomes a precondition. An
exception becomes a `Failure` result.

Ties in the search: the loop skips a row only when `best_d < d`
(`main.cpp:135-136`). A row at the same distance as the best so far
therefore replaces it, and among equally near rows the last one is
returned. A rule that kept the first of equally near rows would skip when
`best_d <= d`. `Search.Search` and
`Search.TieGoesToLast` state the last-index rule.

## Model

| member | source | states |
|---|---|---|
| Bits.Popcount | benchmark-distance/main.cpp:38-47 | the five rounds of sideways addition return the number of set bits of the word, which lies between 0 and 32 |
| Bits.PopcountRounds | benchmark-distance/main.cpp:40-44 | after the five rounds the word holds the number of set bits of the input (byte counts after three rounds, then 16-bit and 32-bit sums without carries) |
| Bits.BitCountRange | benchmark-distance/main.cpp:39-47 | a 32-bit word has at most 32 set bits, none exactly when it is 0, and 32 exactly when all bits are set |
| CTypes.IntAdd | benchmark-distance/main.cpp:53 | `int` addition, as in the accumulations `result+=` (lines 53, 81, 109, 120) and the final `+` of line 98, is defined only when it does not overflow, and its result is an `int` |
| Kernels.WordAt | benchmark-distance/main.cpp:104-109 | the word `pi[k]` read through `reinterpret_cast` holds the bit patterns of the four consecutive bytes from index `i`, least significant first (little-endian) |
| Search.Row | benchmark-distance/main.cpp:134 | the vector at `&dict[n*D]` is the D bytes starting at n·D, which end within the dictionary: its byte k is `dict[n*D + k]` |
| Bits.ByteDiffFacts | benchmark-distance/main.cpp:101-111 | two bytes differ in at most 8 bits, in none exactly when they are equal, and in as many bits in either order |
| Bits.XorDiff | benchmark-distance/main.cpp:110 | the set bits of `a ^ b` are the bits in which `a` and `b` differ |
| Bits.XorWord | benchmark-distance/main.cpp:104-110 | the set bits of the exclusive or of two words read from memory equal the sum, over their four bytes, of the bits in which the bytes differ |
| CTypes.ToBitsValue | benchmark-distance/main.cpp:104-105 | the bit pattern of an `unsigned char`, read as an unsigned number, is its value |
| CTypes.BitsInjective | benchmark-distance/main.cpp:104-105 | two bytes have the same bit pattern exactly when they are equal |
| Distances.SumAppend | benchmark-distance/main.cpp:79-81 | a distance summed over two concatenated pieces of vectors is the sum of the distances of the pieces |
| Distances.SumFacts | benchmark-distance/main.cpp:79-81 | summing a bounded, symmetric per-byte distance that vanishes only on equal bytes gives a distance between vectors that is at most bound × D, symmetric, and zero exactly between equal vectors |
| Distances.SquareFacts | benchmark-distance/main.cpp:53 | the square of a difference of two bytes lies in 0..255², does not depend on the sign, and is zero only at 0 |
| Distances.L1Facts | benchmark-distance/main.cpp:77-83 | the L1 distance lies in 0..255·D, is symmetric and is zero exactly between equal vectors |
| Distances.L2Facts | benchmark-distance/main.cpp:49-55 | the squared L2 distance lies in 0..255²·D, is symmetric and is zero exactly between equal vectors |
| Distances.HammingFacts | benchmark-distance/main.cpp:101-111 | the Hamming distance lies in 0..8·D, is symmetric and is zero exactly between equal vectors |
| Distances.KnownValues | benchmark-distance/main.cpp:49-111 | between [0,0,0,0] and [3,4,0,0] the L1 distance is 7, the squared L2 distance 25 and the Hamming distance 3 |
| Kernels.DistL1 | benchmark-distance/main.cpp:77-83 | the loop returns the L1 distance, the sum of `abs(q[d] - p[d])`, provided that sum cannot overflow an `int` |
| Kernels.DistL2 | benchmark-distance/main.cpp:49-55 | the loop returns the squared L2 distance, the sum of `(q[d] - p[d])²`, provided that sum cannot overflow an `int` |
| Kernels.HammingWord | benchmark-distance/main.cpp:108-110 | adding the bit count of `pi[k] ^ qi[k]` adds the Hamming distance of the four bytes of that word |
| Kernels.DistHamming | benchmark-distance/main.cpp:101-111 | for D divisible by 4, summing `popcount(pi[k] ^ qi[k])` over the words returns the Hamming distance |
| Kernels.DistHammingSse | benchmark-distance/main.cpp:112-122 | for D divisible by 4, summing `_mm_popcnt_u32(pi[k] ^ qi[k])` returns the Hamming distance, the same as `dist_hamming` |
| Sse.SadIsL1 | benchmark-distance/main.cpp:92-95 | summing the absolute byte differences from the front, as the SAD instruction does, gives the L1 distance |
| Sse.Sad | benchmark-distance/main.cpp:92-95 | `_mm_sad_epu8` puts the L1 distance of each 8-byte half in lanes 0 and 2, at most 8·255, and zero in lanes 1 and 3 |
| Sse.AddEpi32 | benchmark-distance/main.cpp:91 | lane-wise addition stays in 32 bits, and in each of the four lanes it is exact when the lane sum does not wrap |
| Sse.Signed32 | benchmark-distance/main.cpp:98 | reading a lane as a signed `int` keeps its value exactly when it is at most INT_MAX |
| Sse.L1Chunk | benchmark-distance/main.cpp:88-96 | a 16-byte chunk adds the sum of its two SAD lanes to the L1 distance |
| Sse.DistL1Sse | benchmark-distance/main.cpp:84-99 | for D divisible by 16, adding the SAD lanes 0 and 2 of every chunk returns the L1 distance, the same as `dist_l1` |
| Sse.DistL2Sse | benchmark-distance/main.cpp:56-58 | always fails with the domain error "unimplemented function!" |
| Search.MeasureFacts | benchmark-distance/main.cpp:128-134 | every kernel except the SSE L2 one returns a value in 0..INT_MAX that is symmetric and zero exactly between equal vectors |
| Search.Distance | benchmark-distance/main.cpp:130-134 | calling the chosen kernel returns its distance, or the failure of the SSE L2 kernel |
| Search.RowBound | benchmark-distance/main.cpp:128-134 | row `n < N` of a dictionary of N rows of D bytes, starting at `n*D`, ends within the dictionary |
| Search.LastMinUnique | benchmark-distance/main.cpp:124-141 | at most one index and distance are the last minimum of the row distances, so the specification of the search fixes its result |
| Search.TieGoesToLast | benchmark-distance/main.cpp:135-138 | of two rows at the same distance, the earlier one is never the result |
| Search.LastMinStep | benchmark-distance/main.cpp:133-138 | one more row keeps the last minimum of the rows scanned: the best survives only a strictly larger distance, and any distance at most the best replaces it |
| Search.Search | benchmark-distance/main.cpp:124-141 | for N = 0 returns (INT_MAX, -1). Otherwise it fails when the kernel fails, and else returns the least distance of a row to the query and the last row index at that distance. Inputs are not modified |

## Left out

- `main`, `print_vectors` and `to_binary` are left out: random vector generation, printing and timing are I/O.
- The commented-out draft inside `dist_l2_sse` is not part of this model; it is never executed.
- Alignment is left out: `_aligned_malloc` and the aligned `_mm_load_si128` load. Pointers become sequences of bytes, and a row of the dictionary is a slice of the array.
- `reinterpret_cast` of a byte pointer to `unsigned int*` becomes reading four consecutive bytes as one little-endian word. The Hamming distance does not depend on the byte order.
- The metric is chosen in the source by commented-out lines in `search`. Here it is a parameter.
- Kernels.DistL1: requires 255·D ≤ INT_MAX instead of modelling signed `int` overflow, which is undefined in C.
- Kernels.DistL2: requires 255²·D ≤ INT_MAX instead of modelling signed `int` overflow.
- Kernels.DistHamming: requires 8·D ≤ INT_MAX instead of modelling signed `int` overflow.
- Kernels.DistHammingSse: requires 8·D ≤ INT_MAX instead of modelling signed `int` overflow.
- Sse.DistL1Sse: requires 255·D ≤ INT_MAX. Under it the 32-bit lanes never wrap, and their final signed sum does not overflow.
- Search.Search: requires N·D ≤ 2³² and N ≤ INT_MAX + 1. The wrap-around of the unsigned offset `n*D` and the conversion of an index above INT_MAX to `int` are not modelled.
- Search.Search: a dimension that the kernel's debug assertion rejects (`D % 16`, `D % 4`) is excluded by a precondition, as the assertion does in a debug build. It is not a checked failure.
