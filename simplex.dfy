/**
 * The integer half of the simplex-noise factories: the shuffled byte table
 * `p`, the 512-entry tables `perm` and `permMod12` built from it, and the
 * part of each returned noise function that picks the simplex corners and
 * looks their gradients up.
 *
 * The random source is a sequence of draws in [0, 1), one per swap.  The
 * skew and unskew factors and the corner contributions (square roots,
 * `Math.pow`, float sums) are left out: a noise function is modelled from
 * the lattice cell `(i, j, ...)` (the floors of the skewed input) and the
 * offsets `x0, y0, ...` from the cell origin, which are its parameters.
 */
module Simplex {

  /** An element of a `Uint8Array`. */
  type Byte = b: int | 0 <= b < 256

  /** `n & 255`: the low byte of an integer, never negative. */
  function Wrap(n: int): Byte {
    n % 256
  }

  // ---------------------------------------------------------------------
  // The shuffled table `p`
  // ---------------------------------------------------------------------

  /** `0, 1, ..., n - 1`. */
  function Iota(n: nat): (s: seq<Byte>)
    requires n <= 256
    ensures |s| == n
    ensures forall k | 0 <= k < n :: s[k] == k
  {
    if n == 0 then [] else Iota(n - 1) + [n - 1]
  }

  /** `Math.floor((i + 1) * random())`: the index swapped with `i`. */
  function Pick(i: nat, r: real): (n: nat)
    requires 0.0 <= r < 1.0
    ensures n <= i
  {
    PickBounds(i, r);
    ((i + 1) as real * r).Floor
  }

  lemma PickBounds(i: nat, r: real)
    requires 0.0 <= r < 1.0
    ensures 0.0 <= (i + 1) as real * r < (i + 1) as real
  {
    var m := (i + 1) as real;
    assert m * r <= m * 1.0 - m * (1.0 - r);
    assert m * (1.0 - r) > 0.0;
  }

  /** Whether every draw lies in [0, 1), as `Math.random` promises. */
  predicate Draws(draws: seq<real>) {
    forall k | 0 <= k < |draws| :: 0.0 <= draws[k] < 1.0
  }

  /** The swap of positions `i` and `j`. */
  function Swap(s: seq<Byte>, i: nat, j: nat): (t: seq<Byte>)
    requires i < |s| && j < |s|
    ensures |t| == |s| && t[i] == s[j] && t[j] == s[i]
    ensures forall k | 0 <= k < |s| && k != i && k != j :: t[k] == s[k]
  {
    s[i := s[j]][j := s[i]]
  }

  /**
   * The swap loop from position `i` down to 1 over a table one longer than
   * the draws: position `i` is swapped with `Pick(i, draws[|draws| - i])`,
   * the draw made at that step.
   */
  function Shuffled(s: seq<Byte>, draws: seq<real>, i: nat): (t: seq<Byte>)
    requires |s| == |draws| + 1 && Draws(draws) && i <= |draws|
    ensures |t| == |s|
    decreases i
  {
    if i == 0 then s else Shuffled(Swap(s, i, Pick(i, draws[|draws| - i])), draws, i - 1)
  }

  /** A swap keeps the elements. */
  lemma SwapPermutes(s: seq<Byte>, i: nat, j: nat)
    requires i < |s| && j < |s|
    ensures multiset(Swap(s, i, j)) == multiset(s)
  {
  }

  /** The swap loop only reorders the table. */
  lemma {:induction false} ShuffledPermutes(s: seq<Byte>, draws: seq<real>, i: nat)
    requires |s| == |draws| + 1 && Draws(draws) && i <= |draws|
    ensures multiset(Shuffled(s, draws, i)) == multiset(s)
    decreases i
  {
    if i > 0 {
      var n := Pick(i, draws[|draws| - i]);
      SwapPermutes(s, i, n);
      ShuffledPermutes(Swap(s, i, n), draws, i - 1);
    }
  }

  /** The table after `for (i = 0; i < 256; i++) p[i] = i`. */
  method Identity() returns (p: array<Byte>)
    ensures fresh(p) && p.Length == 256
    ensures p[..] == Iota(256)
  {
    p := new Byte[256];
    for i := 0 to 256
      invariant p[..i] == Iota(i)
    {
      p[i] := i;
      assert p[..i + 1] == p[..i] + [i];
    }
    assert p[..] == p[..256];
  }

  /** `q = p[i]; p[i] = p[n]; p[n] = q`. */
  method SwapAt(p: array<Byte>, i: nat, n: nat)
    requires i < p.Length && n < p.Length
    modifies p
    ensures p[..] == Swap(old(p[..]), i, n)
  {
    var q := p[i];
    p[i] := p[n];
    p[n] := q;
  }

  /** The Fisher-Yates swap loop, in place on `p`. */
  method Shuffle(p: array<Byte>, draws: seq<real>)
    requires p.Length == |draws| + 1 && Draws(draws)
    modifies p
    ensures p[..] == Shuffled(old(p[..]), draws, |draws|)
  {
    var i := |draws|;
    while i > 0
      invariant 0 <= i <= |draws|
      invariant Shuffled(p[..], draws, i) == Shuffled(old(p[..]), draws, |draws|)
      decreases i
    {
      var n := Pick(i, draws[|draws| - i]);
      ghost var s := p[..];
      SwapAt(p, i, n);
      assert Shuffled(s, draws, i) == Shuffled(Swap(s, i, n), draws, i - 1);
      i := i - 1;
    }
  }

  /** The shuffled table holds every byte exactly once. */
  lemma ShuffleIsPermutation(draws: seq<real>, v: int)
    requires |draws| < 256 && Draws(draws)
    ensures var t := Shuffled(Iota(|draws| + 1), draws, |draws|);
      multiset(t)[v] == if 0 <= v <= |draws| then 1 else 0
  {
    IotaCount(|draws| + 1, v);
    ShuffledPermutes(Iota(|draws| + 1), draws, |draws|);
  }

  lemma {:induction false} IotaCount(n: nat, v: int)
    requires n <= 256
    ensures multiset(Iota(n))[v] == if 0 <= v < n then 1 else 0
  {
    if n > 0 {
      IotaCount(n - 1, v);
    }
  }

  // ---------------------------------------------------------------------
  // The tables `perm` and `permMod12`
  // ---------------------------------------------------------------------

  /** Whether `perm` is 512 long and its second half repeats its first. */
  predicate Periodic(perm: seq<Byte>) {
    |perm| == 512 && perm[256..] == perm[..256]
  }

  /** Whether `mod12` is 512 long and holds the entries of `perm` modulo 12. */
  predicate Mod12Of(perm: seq<Byte>, mod12: seq<Byte>) {
    |perm| == 512 && |mod12| == 512 && forall k | 0 <= k < 512 :: mod12[k] == perm[k] % 12
  }

  /** Whether the two tables are ones the factories build. */
  predicate Tables(perm: seq<Byte>, mod12: seq<Byte>) {
    Periodic(perm) && Mod12Of(perm, mod12)
  }

  /** The fill loop: `perm[i] = p[i & 255]`, `permMod12[i] = perm[i] % 12`. */
  method BuildTables(p: array<Byte>) returns (perm: array<Byte>, permMod12: array<Byte>)
    requires p.Length == 256
    ensures fresh(perm) && fresh(permMod12)
    ensures perm[..] == p[..] + p[..]
    ensures Tables(perm[..], permMod12[..])
  {
    perm := new Byte[512];
    permMod12 := new Byte[512];
    for i := 0 to 512
      invariant forall k | 0 <= k < i :: perm[k] == p[k % 256] && permMod12[k] == perm[k] % 12
    {
      perm[i] := p[Wrap(i)];
      permMod12[i] := perm[i] % 12;
    }
  }

  /** The whole table setup of a noise factory, from the draws of its random source. */
  method MakeTables(draws: seq<real>) returns (perm: array<Byte>, permMod12: array<Byte>)
    requires |draws| == 255 && Draws(draws)
    ensures fresh(perm) && fresh(permMod12)
    ensures var p := Shuffled(Iota(|draws| + 1), draws, |draws|); perm[..] == p + p
    ensures Tables(perm[..], permMod12[..])
  {
    var p := Identity();
    Shuffle(p, draws);
    perm, permMod12 := BuildTables(p);
  }

  /** `perm` holds every byte exactly twice. */
  lemma PermHoldsEachByteTwice(draws: seq<real>, perm: seq<Byte>, v: int)
    requires |draws| < 256 && Draws(draws)
    requires var p := Shuffled(Iota(|draws| + 1), draws, |draws|); perm == p + p
    ensures multiset(perm)[v] == if 0 <= v <= |draws| then 2 else 0
  {
    ShuffleIsPermutation(draws, v);
  }

  /** A periodic table reads the same at any two indices equal modulo 256. */
  lemma Fold(perm: seq<Byte>, a: int, b: int)
    requires Periodic(perm) && 0 <= a < 512 && 0 <= b < 512 && a % 256 == b % 256
    ensures perm[a] == perm[b]
  {
    if a >= 256 {
      assert perm[a] == perm[256..][a - 256] == perm[..256][a - 256];
    }
    if b >= 256 {
      assert perm[b] == perm[256..][b - 256] == perm[..256][b - 256];
    }
  }

  /**
   * Stepping a lattice coordinate by an offset of 0 or 1 before or after
   * taking its low byte reads the same entry: the 512-entry table spares
   * the wrap-around.
   */
  lemma Step(perm: seq<Byte>, n: int, d: int, inner: Byte)
    requires Periodic(perm) && 0 <= d <= 1
    ensures perm[Wrap(n) + d + inner] == perm[Wrap(n + d) + inner]
  {
    Fold(perm, Wrap(n) + d + inner, Wrap(n + d) + inner);
  }

  // ---------------------------------------------------------------------
  // 2D
  // ---------------------------------------------------------------------

  /** The hash of lattice point `(i, j)`. */
  function Hash2(perm: seq<Byte>, i: int, j: int): Byte
    requires |perm| == 512
  {
    perm[Wrap(i) + perm[Wrap(j)]]
  }

  /** Offsets of the middle corner and gradient indices of the three corners. */
  datatype Corners2 = Corners2(i1: int, j1: int, g0: int, g1: int, g2: int)

  /**
   * The middle corner steps along `x` when `x0 > y0` and along `y`
   * otherwise; each gradient index is a `permMod12` entry.
   */
  function Corners2Of(perm: seq<Byte>, mod12: seq<Byte>, i: int, j: int, x0: real, y0: real): (c: Corners2)
    requires Tables(perm, mod12)
    ensures 0 <= c.i1 <= 1 && 0 <= c.j1 <= 1 && c.i1 + c.j1 == 1
    ensures c.i1 == 1 <==> x0 > y0
    ensures 0 <= c.g0 < 12 && 0 <= c.g1 < 12 && 0 <= c.g2 < 12
  {
    var i1 := if x0 > y0 then 1 else 0;
    var j1 := if x0 > y0 then 0 else 1;
    var ii, jj := Wrap(i), Wrap(j);
    Corners2(i1, j1, mod12[ii + perm[jj]], mod12[ii + i1 + perm[jj + j1]], mod12[ii + 1 + perm[jj + 1]])
  }

  /** A corner at offset `(di, dj)` reads the hash of its own lattice point. */
  lemma Lookup2Hash(perm: seq<Byte>, i: int, j: int, di: int, dj: int)
    requires Periodic(perm) && 0 <= di <= 1 && 0 <= dj <= 1
    ensures perm[Wrap(i) + di + perm[Wrap(j) + dj]] == Hash2(perm, i + di, j + dj)
  {
    Step(perm, j, dj, 0);
    Step(perm, i, di, perm[Wrap(j + dj)]);
  }

  /** Each corner's gradient index is that of its own lattice point. */
  lemma Corners2Hashes(perm: seq<Byte>, mod12: seq<Byte>, i: int, j: int, x0: real, y0: real)
    requires Tables(perm, mod12)
    ensures var c := Corners2Of(perm, mod12, i, j, x0, y0);
      c.g0 == Hash2(perm, i, j) % 12
      && c.g1 == Hash2(perm, i + c.i1, j + c.j1) % 12
      && c.g2 == Hash2(perm, i + 1, j + 1) % 12
  {
    var c := Corners2Of(perm, mod12, i, j, x0, y0);
    Lookup2Hash(perm, i, j, 0, 0);
    Lookup2Hash(perm, i, j, c.i1, c.j1);
    Lookup2Hash(perm, i, j, 1, 1);
  }

  /**
   * Neighbouring cells agree on the gradient of a shared lattice point:
   * the far corner of cell `(i, j)` is the origin of cell `(i + 1, j + 1)`.
   */
  lemma SharedCorner2(perm: seq<Byte>, mod12: seq<Byte>, i: int, j: int, x0: real, y0: real, x0': real, y0': real)
    requires Tables(perm, mod12)
    ensures Corners2Of(perm, mod12, i, j, x0, y0).g2 == Corners2Of(perm, mod12, i + 1, j + 1, x0', y0').g0
  {
    Corners2Hashes(perm, mod12, i, j, x0, y0);
    Corners2Hashes(perm, mod12, i + 1, j + 1, x0', y0');
  }

  // ---------------------------------------------------------------------
  // 3D
  // ---------------------------------------------------------------------

  /** An offset of 0 or 1 along each axis. */
  datatype Offset3 = Offset3(i: int, j: int, k: int)

  predicate Unit3(o: Offset3) {
    0 <= o.i <= 1 && 0 <= o.j <= 1 && 0 <= o.k <= 1
  }

  /** The offsets of the second and third corners, chosen from the order of `x0, y0, z0`. */
  function Offsets3(x0: real, y0: real, z0: real): (r: (Offset3, Offset3))
    ensures Unit3(r.0) && Unit3(r.1)
    ensures r.0.i + r.0.j + r.0.k == 1 && r.1.i + r.1.j + r.1.k == 2
    ensures r.0.i <= r.1.i && r.0.j <= r.1.j && r.0.k <= r.1.k
    // The second corner steps along a largest coordinate.
    ensures r.0.i == 1 ==> x0 >= y0 && x0 >= z0
    ensures r.0.j == 1 ==> y0 >= x0 && y0 >= z0
    ensures r.0.k == 1 ==> z0 >= x0 && z0 >= y0
    // The third corner leaves out a smallest coordinate.
    ensures r.1.i == 0 ==> x0 <= y0 && x0 <= z0
    ensures r.1.j == 0 ==> y0 <= x0 && y0 <= z0
    ensures r.1.k == 0 ==> z0 <= x0 && z0 <= y0
  {
    if x0 >= y0 then
      if y0 >= z0 then (Offset3(1, 0, 0), Offset3(1, 1, 0))
      else if x0 >= z0 then (Offset3(1, 0, 0), Offset3(1, 0, 1))
      else (Offset3(0, 0, 1), Offset3(1, 0, 1))
    else
      if y0 < z0 then (Offset3(0, 0, 1), Offset3(0, 1, 1))
      else if x0 < z0 then (Offset3(0, 1, 0), Offset3(0, 1, 1))
      else (Offset3(0, 1, 0), Offset3(1, 1, 0))
  }

  /** The hash of lattice point `(i, j, k)`. */
  function Hash3(perm: seq<Byte>, i: int, j: int, k: int): Byte
    requires |perm| == 512
  {
    perm[Wrap(i) + perm[Wrap(j) + perm[Wrap(k)]]]
  }

  /** The outermost table index a corner at offset `o` from the cell with low bytes `ii, jj, kk` reads. */
  function Index3(perm: seq<Byte>, ii: Byte, jj: Byte, kk: Byte, o: Offset3): (n: int)
    requires |perm| == 512 && Unit3(o)
    ensures 0 <= n < 512
  {
    ii + o.i + perm[jj + o.j + perm[kk + o.k]]
  }

  /** Gradient indices of the four corners of a 3D simplex. */
  datatype Corners3 = Corners3(second: Offset3, third: Offset3, g0: int, g1: int, g2: int, g3: int)

  function Corners3Of(perm: seq<Byte>, mod12: seq<Byte>, i: int, j: int, k: int, x0: real, y0: real, z0: real): (c: Corners3)
    requires Tables(perm, mod12)
    ensures c.second == Offsets3(x0, y0, z0).0 && c.third == Offsets3(x0, y0, z0).1
    ensures 0 <= c.g0 < 12 && 0 <= c.g1 < 12 && 0 <= c.g2 < 12 && 0 <= c.g3 < 12
  {
    var (o1, o2) := Offsets3(x0, y0, z0);
    var ii, jj, kk := Wrap(i), Wrap(j), Wrap(k);
    Corners3(o1, o2,
      mod12[Index3(perm, ii, jj, kk, Offset3(0, 0, 0))],
      mod12[Index3(perm, ii, jj, kk, o1)],
      mod12[Index3(perm, ii, jj, kk, o2)],
      mod12[Index3(perm, ii, jj, kk, Offset3(1, 1, 1))])
  }

  /** A corner at offset `o` reads the hash of its own lattice point. */
  lemma Lookup3Hash(perm: seq<Byte>, i: int, j: int, k: int, o: Offset3)
    requires Periodic(perm) && Unit3(o)
    ensures perm[Index3(perm, Wrap(i), Wrap(j), Wrap(k), o)] == Hash3(perm, i + o.i, j + o.j, k + o.k)
  {
    var c := perm[Wrap(k) + o.k];
    assert c == perm[Wrap(k + o.k)] by { Step(perm, k, o.k, 0); }
    var b := perm[Wrap(j) + o.j + c];
    assert b == perm[Wrap(j + o.j) + c] by { Step(perm, j, o.j, c); }
    assert perm[Wrap(i) + o.i + b] == perm[Wrap(i + o.i) + b] by { Step(perm, i, o.i, b); }
  }

  /** Each corner's gradient index is that of its own lattice point. */
  lemma Corners3Hashes(perm: seq<Byte>, mod12: seq<Byte>, i: int, j: int, k: int, x0: real, y0: real, z0: real)
    requires Tables(perm, mod12)
    ensures var c := Corners3Of(perm, mod12, i, j, k, x0, y0, z0);
      c.g0 == Hash3(perm, i, j, k) % 12
      && c.g1 == Hash3(perm, i + c.second.i, j + c.second.j, k + c.second.k) % 12
      && c.g2 == Hash3(perm, i + c.third.i, j + c.third.j, k + c.third.k) % 12
      && c.g3 == Hash3(perm, i + 1, j + 1, k + 1) % 12
  {
    var c := Corners3Of(perm, mod12, i, j, k, x0, y0, z0);
    Lookup3Hash(perm, i, j, k, Offset3(0, 0, 0));
    Lookup3Hash(perm, i, j, k, c.second);
    Lookup3Hash(perm, i, j, k, c.third);
    Lookup3Hash(perm, i, j, k, Offset3(1, 1, 1));
  }

  // ---------------------------------------------------------------------
  // 4D
  // ---------------------------------------------------------------------

  /** The ranks of `x0, y0, z0, w0`; rank 3 is the largest. */
  datatype Ranks4 = Ranks4(x: int, y: int, z: int, w: int)

  /**
   * Six pairwise comparisons, each adding one to the rank of the winner; a
   * tie goes to the later coordinate.  The ranks order the coordinates.
   */
  function RanksOf(x0: real, y0: real, z0: real, w0: real): (r: Ranks4)
    ensures r.x + r.y + r.z + r.w == 6
    ensures 0 <= r.x <= 3 && 0 <= r.y <= 3 && 0 <= r.z <= 3 && 0 <= r.w <= 3
  {
    var xy, xz, xw := if x0 > y0 then 1 else 0, if x0 > z0 then 1 else 0, if x0 > w0 then 1 else 0;
    var yz, yw, zw := if y0 > z0 then 1 else 0, if y0 > w0 then 1 else 0, if z0 > w0 then 1 else 0;
    Ranks4(xy + xz + xw, (1 - xy) + yz + yw, (1 - xz) + (1 - yz) + zw, (1 - xw) + (1 - yw) + (1 - zw))
  }

  /** A coordinate outranks another exactly when it is larger, or equal and later. */
  lemma RanksOrder(x0: real, y0: real, z0: real, w0: real)
    ensures var r := RanksOf(x0, y0, z0, w0);
      (r.x > r.y) == (x0 > y0) && (r.x > r.z) == (x0 > z0) && (r.x > r.w) == (x0 > w0)
      && (r.y > r.z) == (y0 > z0) && (r.y > r.w) == (y0 > w0) && (r.z > r.w) == (z0 > w0)
  {
  }

  /** The four ranks are 0, 1, 2 and 3 in some order. */
  lemma RanksArePermutation(x0: real, y0: real, z0: real, w0: real)
    ensures Ranking(RanksOf(x0, y0, z0, w0))
    ensures var r := RanksOf(x0, y0, z0, w0); {r.x, r.y, r.z, r.w} == {0, 1, 2, 3}
  {
    RanksOrder(x0, y0, z0, w0);
  }

  /** An offset of 0 or 1 along each of the four axes. */
  datatype Offset4 = Offset4(i: int, j: int, k: int, l: int)

  predicate Unit4(o: Offset4) {
    0 <= o.i <= 1 && 0 <= o.j <= 1 && 0 <= o.k <= 1 && 0 <= o.l <= 1
  }

  /** Whether `r` ranks four coordinates: its entries are distinct and within 0..3. */
  predicate Ranking(r: Ranks4) {
    0 <= r.x <= 3 && 0 <= r.y <= 3 && 0 <= r.z <= 3 && 0 <= r.w <= 3
    && r.x != r.y && r.x != r.z && r.x != r.w && r.y != r.z && r.y != r.w && r.z != r.w
  }

  /** `i1 = rankx >= t ? 1 : 0` and so on: a step along every coordinate ranked `t` or higher. */
  function Threshold(r: Ranks4, t: int): (o: Offset4)
    requires Ranking(r) && 1 <= t <= 3
    ensures Unit4(o) && o.i + o.j + o.k + o.l == 4 - t
  {
    Offset4(if r.x >= t then 1 else 0, if r.y >= t then 1 else 0,
            if r.z >= t then 1 else 0, if r.w >= t then 1 else 0)
  }

  /** The three inner corners of a 4D simplex: each adds one step to the previous one. */
  lemma ThresholdsNest(r: Ranks4)
    requires Ranking(r)
    ensures var o1, o2, o3 := Threshold(r, 3), Threshold(r, 2), Threshold(r, 1);
      o1.i <= o2.i <= o3.i && o1.j <= o2.j <= o3.j && o1.k <= o2.k <= o3.k && o1.l <= o2.l <= o3.l
  {
  }

  /** The hash of lattice point `(i, j, k, l)`. */
  function Hash4(perm: seq<Byte>, i: int, j: int, k: int, l: int): Byte
    requires |perm| == 512
  {
    perm[Wrap(i) + perm[Wrap(j) + perm[Wrap(k) + perm[Wrap(l)]]]]
  }

  /** The outermost table index a corner at offset `o` from the cell with low bytes `ii, jj, kk, ll` reads. */
  function Index4(perm: seq<Byte>, ii: Byte, jj: Byte, kk: Byte, ll: Byte, o: Offset4): (n: int)
    requires |perm| == 512 && Unit4(o)
    ensures 0 <= n < 512
  {
    ii + o.i + perm[jj + o.j + perm[kk + o.k + perm[ll + o.l]]]
  }

  /** The `Grad4` index of the corner at offset `o` from cell `(i, j, k, l)`: `perm[ii + o.i + perm[jj + o.j + ...]] % 32`. */
  function Gradient4(perm: seq<Byte>, i: int, j: int, k: int, l: int, o: Offset4): (g: int)
    requires |perm| == 512 && Unit4(o)
    ensures 0 <= g < 32
  {
    perm[Index4(perm, Wrap(i), Wrap(j), Wrap(k), Wrap(l), o)] % 32
  }

  /** The five corners of a 4D simplex, from the cell origin to the far corner, and their `Grad4` indices. */
  datatype Corners4 = Corners4(offsets: seq<Offset4>, grads: seq<int>)

  /** The corners of the 4D simplex of cell `(i, j, k, l)` whose coordinates are ranked `r`, and their gradients. */
  function Simplex4(perm: seq<Byte>, i: int, j: int, k: int, l: int, r: Ranks4): (c: Corners4)
    requires Periodic(perm) && Ranking(r)
    ensures |c.offsets| == 5 && |c.grads| == 5
    ensures c.offsets == [Offset4(0, 0, 0, 0), Threshold(r, 3), Threshold(r, 2), Threshold(r, 1), Offset4(1, 1, 1, 1)]
    ensures forall n | 0 <= n < 5 :: Unit4(c.offsets[n]) && 0 <= c.grads[n] < 32
  {
    var offsets := [Offset4(0, 0, 0, 0), Threshold(r, 3), Threshold(r, 2), Threshold(r, 1), Offset4(1, 1, 1, 1)];
    Corners4(offsets, seq(5, n requires 0 <= n < 5 => Gradient4(perm, i, j, k, l, offsets[n])))
  }

  /** The simplex holding offsets `x0, y0, z0, w0` from the origin of cell `(i, j, k, l)`: rank, then pick corners. */
  function Corners4Of(perm: seq<Byte>, i: int, j: int, k: int, l: int, x0: real, y0: real, z0: real, w0: real): (c: Corners4)
    requires Periodic(perm)
    ensures var r := RanksOf(x0, y0, z0, w0); Ranking(r) && c == Simplex4(perm, i, j, k, l, r)
  {
    RanksArePermutation(x0, y0, z0, w0);
    Simplex4(perm, i, j, k, l, RanksOf(x0, y0, z0, w0))
  }

  /** A corner at offset `o` reads the hash of its own lattice point. */
  lemma Lookup4Hash(perm: seq<Byte>, i: int, j: int, k: int, l: int, o: Offset4)
    requires Periodic(perm) && Unit4(o)
    ensures Gradient4(perm, i, j, k, l, o) == Hash4(perm, i + o.i, j + o.j, k + o.k, l + o.l) % 32
  {
    var d := perm[Wrap(l) + o.l];
    assert d == perm[Wrap(l + o.l)] by { Step(perm, l, o.l, 0); }
    var c := perm[Wrap(k) + o.k + d];
    assert c == perm[Wrap(k + o.k) + d] by { Step(perm, k, o.k, d); }
    var b := perm[Wrap(j) + o.j + c];
    assert b == perm[Wrap(j + o.j) + c] by { Step(perm, j, o.j, c); }
    assert perm[Wrap(i) + o.i + b] == perm[Wrap(i + o.i) + b] by { Step(perm, i, o.i, b); }
  }

  /** Corners read at any unit offsets read the hashes of their own lattice points. */
  lemma {:induction false} Gradients4Hash(perm: seq<Byte>, i: int, j: int, k: int, l: int, offsets: seq<Offset4>, grads: seq<int>)
    requires Periodic(perm) && |grads| == |offsets|
    requires forall n | 0 <= n < |offsets| :: Unit4(offsets[n]) && grads[n] == Gradient4(perm, i, j, k, l, offsets[n])
    ensures forall n | 0 <= n < |offsets| :: var o := offsets[n];
      grads[n] == Hash4(perm, i + o.i, j + o.j, k + o.k, l + o.l) % 32
  {
    forall n | 0 <= n < |offsets|
      ensures var o := offsets[n]; grads[n] == Hash4(perm, i + o.i, j + o.j, k + o.k, l + o.l) % 32
    {
      Lookup4Hash(perm, i, j, k, l, offsets[n]);
    }
  }

  /** The gradient of each corner of a 4D simplex is that of its own lattice point. */
  lemma Corners4Hashes(perm: seq<Byte>, i: int, j: int, k: int, l: int, r: Ranks4)
    requires Periodic(perm) && Ranking(r)
    ensures var c := Simplex4(perm, i, j, k, l, r);
      forall n | 0 <= n < 5 :: var o := c.offsets[n];
        c.grads[n] == Hash4(perm, i + o.i, j + o.j, k + o.k, l + o.l) % 32
  {
    var c := Simplex4(perm, i, j, k, l, r);
    Gradients4Hash(perm, i, j, k, l, c.offsets, c.grads);
  }
}
