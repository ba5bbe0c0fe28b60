/** The Perlin noise tables of src/perlin.rs: three permutations of
    `0..255` shuffled by Fisher–Yates, a table of 256 gradient vectors, the
    hashing of a lattice corner into that table, and the turbulence sum.
    The gradient vectors and the shuffle targets are random in the source;
    here the caller supplies them. `perlin_interp` (floating-point
    smoothing) is a parameter `interp` of the operations that call it. */
module Perlins {
  import opened Vectors

  /** `POINT_COUNT`. */
  const PointCount: nat := 256

  // ---------------------------------------------------------------------
  // Bitwise operators on non-negative integers, bit by bit from the lowest.

  function Pow2(k: nat): (p: nat)
    ensures 1 <= p
  {
    if k == 0 then 1 else 2 * Pow2(k - 1)
  }

  /** `a & b`. */
  function BitAnd(a: nat, b: nat): nat
    decreases a
  {
    if a == 0 || b == 0 then 0 else 2 * BitAnd(a / 2, b / 2) + (a % 2) * (b % 2)
  }

  /** `a ^ b`. */
  function BitXor(a: nat, b: nat): nat
    decreases a + b
  {
    if a == 0 && b == 0 then 0 else 2 * BitXor(a / 2, b / 2) + (a % 2 + b % 2) % 2
  }

  /** Masking with `2^k - 1` keeps the low `k` bits: it is the remainder
      modulo `2^k`. */
  lemma {:induction false} BitAndLowBits(a: nat, k: nat)
    ensures BitAnd(a, Pow2(k) - 1) == a % Pow2(k)
  {
    if k > 0 && a > 0 {
      var m := Pow2(k - 1);
      var b := Pow2(k) - 1;
      assert Pow2(k) == 2 * m;
      assert b == 2 * (m - 1) + 1;
      assert b / 2 == m - 1 && b % 2 == 1;
      BitAndLowBits(a / 2, k - 1);
      calc {
        BitAnd(a, b);
        2 * BitAnd(a / 2, b / 2) + (a % 2) * (b % 2);
        2 * BitAnd(a / 2, m - 1) + a % 2;
        2 * ((a / 2) % m) + a % 2;
        { HalveRemainder(a, m); }
        a % (2 * m);
      }
    } else if k > 0 {
      assert BitAnd(a, Pow2(k) - 1) == 0;
    } else {
      assert Pow2(k) == 1 && BitAnd(a, 0) == 0;
      DivModUnique(a, 1, a, 0);
    }
  }

  /** `a mod 2m` from the remainder of `a / 2` modulo `m` and the low bit. */
  lemma HalveRemainder(a: nat, m: nat)
    requires 1 <= m
    ensures 2 * ((a / 2) % m) + a % 2 == a % (2 * m)
  {
    var q := (a / 2) / m;
    var r := (a / 2) % m;
    assert a / 2 == m * q + r;
    assert a == 2 * (a / 2) + a % 2;
    assert 2 * (m * q) == (2 * m) * q;
    DivModUnique(a, 2 * m, q, 2 * r + a % 2);
  }

  /** Euclidean division has one quotient and one remainder. */
  lemma DivModUnique(a: int, d: int, q: int, r: int)
    requires 0 < d && a == d * q + r && 0 <= r < d
    ensures a / d == q && a % d == r
  {
    var q' := a / d;
    assert a == d * q' + a % d;
    assert d * (q - q') == a % d - r;
    if q > q' {
      AtLeastOnce(d, q - q');
    } else if q < q' {
      AtLeastOnce(d, q' - q);
    }
  }

  lemma AtLeastOnce(d: int, x: int)
    requires 0 < d && 1 <= x
    ensures d <= d * x
  {
    assert d * x == d + d * (x - 1);
  }

  /** The XOR of two values below `2^k` is below `2^k`. */
  lemma {:induction false} BitXorBelow(a: nat, b: nat, k: nat)
    requires a < Pow2(k) && b < Pow2(k)
    ensures BitXor(a, b) < Pow2(k)
    decreases k
  {
    if k > 0 && (a != 0 || b != 0) {
      BitXorBelow(a / 2, b / 2, k - 1);
    }
  }

  // ---------------------------------------------------------------------
  // 32-bit integer arithmetic of the lattice coordinates.

  const I32Min: int := -0x8000_0000
  const I32Max: int := 0x7fff_ffff

  predicate IsI32(x: int) {
    I32Min <= x <= I32Max
  }

  /** `f as i32` on a floored coordinate: Rust saturates at the bounds. */
  function SaturateI32(x: int): (r: int)
    ensures IsI32(r)
    ensures IsI32(x) ==> r == x
    ensures x < I32Min ==> r == I32Min
    ensures I32Max < x ==> r == I32Max
  {
    if x < I32Min then I32Min else if I32Max < x then I32Max else x
  }

  /** `i + di` on `i32`, wrapping on overflow as a release build does. */
  function WrappingAdd(i: int, d: int): (r: int)
    requires IsI32(i) && IsI32(d)
    ensures IsI32(r)
    ensures IsI32(i + d) ==> r == i + d
    ensures (r - (i + d)) % 0x1_0000_0000 == 0
  {
    var s := i + d;
    if I32Max < s then s - 0x1_0000_0000 else if s < I32Min then s + 0x1_0000_0000 else s
  }

  /** `x & 255` on an `i32`: the mask acts on the two's-complement bit
      pattern `x mod 2^32`. */
  function Mask255(x: int): (m: nat)
    requires IsI32(x)
  {
    BitAnd(x % 0x1_0000_0000, 255)
  }

  /** The mask is the (non-negative) remainder modulo 256, also for
      negative `x`. */
  lemma MaskIsMod256(x: int)
    requires IsI32(x)
    ensures Mask255(x) == x % 256
    ensures 0 <= Mask255(x) < PointCount
  {
    var y := x % 0x1_0000_0000;
    assert Pow2(8) == 256;
    BitAndLowBits(y, 8);
    assert Mask255(x) == y % 256;
    var q := x / 0x1_0000_0000;
    assert x == 0x1_0000_0000 * q + y;
    assert y == 256 * (y / 256) + y % 256;
    assert x == 256 * (0x100_0000 * q + y / 256) + y % 256;
    DivModUnique(x, 256, 0x100_0000 * q + y / 256, y % 256);
  }

  /** The table index of lattice coordinate `i + d`: whatever the wrap, it
      is `(i + d) mod 256`. */
  lemma WrappedMaskIsMod256(i: int, d: int)
    requires IsI32(i) && IsI32(d)
    ensures Mask255(WrappingAdd(i, d)) == (i + d) % 256
  {
    var s := WrappingAdd(i, d);
    MaskIsMod256(s);
    var shift := if I32Max < i + d then -0x100_0000 else if i + d < I32Min then 0x100_0000 else 0;
    assert s == i + d + 256 * shift;
    var q := s / 256;
    assert s == 256 * q + s % 256;
    assert i + d == 256 * (q - shift) + s % 256;
    DivModUnique(i + d, 256, q - shift, s % 256);
  }

  /** The `ranvec` index of a corner: the XOR of three table entries, each
      below 256, is below 256. */
  function Xor3(a: nat, b: nat, c: nat): (r: nat)
    requires a < PointCount && b < PointCount && c < PointCount
    ensures r < PointCount
  {
    assert Pow2(8) == 256;
    BitXorBelow(a, b, 8);
    BitXorBelow(BitXor(a, b), c, 8);
    BitXor(BitXor(a, b), c)
  }

  // ---------------------------------------------------------------------
  // Fisher–Yates shuffle.

  /** `0, 1, ..., n - 1`: the table `perlin_generate_perm` fills first. */
  function Identity(n: nat): seq<nat> {
    seq(n, i => i)
  }

  /** `target` of the step at index `i` is `targets[i]`, drawn from
      `0..=i` (`random_i32_in_range(0, i)`); index 0 has no step. */
  predicate ValidTargets(targets: seq<nat>, n: nat) {
    |targets| == n && forall i :: 1 <= i < n ==> targets[i] <= i
  }

  function Swap(s: seq<nat>, i: nat, j: nat): (r: seq<nat>)
    requires i < |s| && j < |s|
  {
    s[i := s[j]][j := s[i]]
  }

  /** The table after the steps of `permute(p, n)` at indices
      `n - 1, n - 2, ..., lo` (index 0 takes no step). */
  function Shuffled(s: seq<nat>, targets: seq<nat>, n: nat, lo: nat): (r: seq<nat>)
    requires n <= |s| && lo <= n && ValidTargets(targets, n)
    ensures |r| == |s|
    decreases n - lo
  {
    if lo == n then s
    else
      var before := Shuffled(s, targets, n, lo + 1);
      if lo == 0 then before else Swap(before, lo, targets[lo])
  }

  /** `s` is a permutation of `0..|s|`. */
  predicate IsPermutation(s: seq<nat>) {
    multiset(s) == multiset(Identity(|s|))
  }

  lemma SwapPermutes(s: seq<nat>, i: nat, j: nat)
    requires i < |s| && j < |s|
    ensures |Swap(s, i, j)| == |s| && multiset(Swap(s, i, j)) == multiset(s)
  {
    var t := s[i := s[j]];
    assert multiset(t) == multiset(s) - multiset{s[i]} + multiset{s[j]};
  }

  /** Every step of `permute` swaps two positions, so the shuffle keeps the
      multiset of entries. */
  lemma {:induction false} ShuffledPermutes(s: seq<nat>, targets: seq<nat>, n: nat, lo: nat)
    requires n <= |s| && lo <= n && ValidTargets(targets, n)
    ensures multiset(Shuffled(s, targets, n, lo)) == multiset(s)
    decreases n - lo
  {
    if lo < n {
      ShuffledPermutes(s, targets, n, lo + 1);
      if lo > 0 {
        SwapPermutes(Shuffled(s, targets, n, lo + 1), lo, targets[lo]);
      }
    }
  }

  /** Each value occurs at most once in `Identity(n)`, exactly when it is
      below `n`. */
  lemma {:induction false} IdentityCount(n: nat, x: nat)
    ensures multiset(Identity(n))[x] == if x < n then 1 else 0
  {
    if n > 0 {
      IdentityCount(n - 1, x);
      assert Identity(n) == Identity(n - 1) + [n - 1];
      if x == n - 1 {
        assert x !in Identity(n - 1);
      }
    }
  }

  /** A permutation of `0..n` holds `n` entries, each below `n`, no two
      alike, and every value below `n` occurs in it. */
  lemma PermutationFacts(s: seq<nat>, n: nat)
    requires |s| == n && IsPermutation(s)
    ensures |s| == n
    ensures forall i :: 0 <= i < |s| ==> s[i] < n
    ensures forall i, j :: 0 <= i < j < |s| ==> s[i] != s[j]
    ensures forall x: nat :: x < n ==> x in s
  {
    assert |s| == |multiset(s)| == |multiset(Identity(n))| == |Identity(n)|;
    forall i | 0 <= i < |s|
      ensures s[i] < n
    {
      assert s[i] in multiset(s);
      IdentityCount(n, s[i]);
    }
    forall i, j | 0 <= i < j < |s|
      ensures s[i] != s[j]
    {
      if s[i] == s[j] {
        TwoOccurrences(s, i, j);
        IdentityCount(n, s[i]);
        assert false;
      }
    }
    forall x: nat | x < n
      ensures x in s
    {
      IdentityCount(n, x);
      assert x in multiset(s);
    }
  }

  lemma TwoOccurrences(s: seq<nat>, i: nat, j: nat)
    requires i < j < |s| && s[i] == s[j]
    ensures multiset(s)[s[i]] >= 2
  {
    assert s == s[..i] + [s[i]] + s[i + 1..j] + [s[j]] + s[j + 1..];
  }

  /** `permute(p, n)`: for `i` from `n - 1` down to 1, swap `p[i]` with
      `p[targets[i]]`. */
  method Permute(p: array<nat>, n: nat, targets: seq<nat>)
    requires n <= p.Length && ValidTargets(targets, n)
    modifies p
    ensures p[..] == Shuffled(old(p[..]), targets, n, 0)
    ensures multiset(p[..]) == multiset(old(p[..]))
  {
    ghost var original := p[..];
    var i: nat := n;
    while i > 1
      invariant i <= n && (n > 0 ==> 1 <= i)
      invariant p[..] == Shuffled(original, targets, n, i)
    {
      i := i - 1;
      p[i], p[targets[i]] := p[targets[i]], p[i];
    }
    assert n > 0 ==> Shuffled(original, targets, n, 0) == Shuffled(original, targets, n, 1);
    ShuffledPermutes(original, targets, n, 0);
  }

  /** The table `perlin_generate_perm` returns for the given targets. */
  function GeneratedTable(targets: seq<nat>): seq<nat>
    requires ValidTargets(targets, PointCount)
  {
    Shuffled(Identity(PointCount), targets, PointCount, 0)
  }

  /** `perlin_generate_perm()`: the identity table, shuffled. */
  method GeneratePerm(targets: seq<nat>) returns (p: array<nat>)
    requires ValidTargets(targets, PointCount)
    ensures fresh(p)
    ensures p[..] == GeneratedTable(targets)
    ensures IsPermutation(p[..])
  {
    p := new nat[PointCount];
    for i := 0 to PointCount
      invariant forall k :: 0 <= k < i ==> p[k] == k
    {
      p[i] := i;
    }
    assert p[..] == Identity(PointCount);
    Permute(p, PointCount, targets);
  }

  /** The result of `perlin_generate_perm` is a permutation of `0..255`,
      whichever targets were drawn. */
  lemma GeneratedIsPermutation(targets: seq<nat>)
    requires ValidTargets(targets, PointCount)
    ensures IsPermutation(GeneratedTable(targets))
  {
    ShuffledPermutes(Identity(PointCount), targets, PointCount, 0);
  }

  // ---------------------------------------------------------------------
  // Noise and turbulence.

  /** `x - x.floor()`. */
  function Frac(x: real): (f: real)
    ensures 0.0 <= f < 1.0
    ensures (x - f).Floor as real == x - f
  {
    x - x.Floor as real
  }

  /** `x.floor() as i32`. */
  function Cell(x: real): (i: int)
    ensures IsI32(i)
  {
    SaturateI32(x.Floor)
  }

  /** `p * 2^k`, as `k` rounds of `temp_p *= 2.0` leave it. */
  function Doubled(p: Vec3, k: nat): Vec3 {
    if k == 0 then p else ScaleRight(Doubled(p, k - 1), 2.0)
  }

  function Pow(x: real, k: nat): real {
    if k == 0 then 1.0 else Pow(x, k - 1) * x
  }

  /** `k` rounds of doubling scale every component by `2^k`. */
  lemma {:induction false} DoubledIsScale(p: Vec3, k: nat)
    ensures Doubled(p, k) == ScaleRight(p, Pow(2.0, k))
  {
    if k > 0 {
      DoubledIsScale(p, k - 1);
      var w := Pow(2.0, k - 1);
      assert p.x * w * 2.0 == p.x * (w * 2.0);
      assert p.y * w * 2.0 == p.y * (w * 2.0);
      assert p.z * w * 2.0 == p.z * (w * 2.0);
    }
  }

  function Abs(x: real): (a: real) {
    if x < 0.0 then -x else x
  }

  /** A `perm` table: `POINT_COUNT` entries, each an index of `ranvec`
      (what being a permutation of `0..255` gives the lookups). */
  predicate IsTable(perm: seq<nat>) {
    |perm| == PointCount && forall i :: 0 <= i < |perm| ==> perm[i] < PointCount
  }

  lemma PermutationIsTable(perm: seq<nat>)
    requires |perm| == PointCount && IsPermutation(perm)
    ensures IsTable(perm)
  {
    PermutationFacts(perm, PointCount);
  }

  /** `perlin_generate_perm()`, with the table invariant it establishes. */
  method GenerateTable(targets: seq<nat>) returns (perm: array<nat>)
    requires ValidTargets(targets, PointCount)
    ensures fresh(perm) && IsTable(perm[..]) && perm[..] == GeneratedTable(targets)
  {
    perm := GeneratePerm(targets);
    PermutationIsTable(perm[..]);
  }

  /** `(i + d) & 255` for the `i32` lattice coordinate `i`. */
  function Index(i: int, d: nat): (n: nat)
    requires IsI32(i) && d < 2
    ensures n == (i + d) % 256
  {
    WrappedMaskIsMod256(i, d);
    Mask255(WrappingAdd(i, d))
  }

  /** The contents of a `Perlin`: the gradient vectors and the three
      `perm` tables. */
  datatype Lattice = Lattice(ranvec: seq<Vec3>, permX: seq<nat>, permY: seq<nat>, permZ: seq<nat>)
  {
    predicate Valid() {
      |ranvec| == PointCount && IsTable(permX) && IsTable(permY) && IsTable(permZ)
    }

    /** The `ranvec` index of corner `(di, dj, dk)` of the cell of `p`:
        the three table entries at the corner's coordinates, each taken
        modulo 256, combined by `^`. */
    function Hash(p: Vec3, di: nat, dj: nat, dk: nat): (n: nat)
      requires Valid() && di < 2 && dj < 2 && dk < 2
      ensures n < PointCount
    {
      Xor3(permX[Index(Cell(p.x), di)], permY[Index(Cell(p.y), dj)], permZ[Index(Cell(p.z), dk)])
    }

    /** The gradient at corner `(di, dj, dk)` of the cell of `p`. */
    function Gradient(p: Vec3, di: nat, dj: nat, dk: nat): Vec3
      requires Valid() && di < 2 && dj < 2 && dk < 2
    {
      ranvec[Hash(p, di, dj, dk)]
    }

    /** The eight gradients `c[di][dj][dk]` of the cell of `p`, flattened. */
    function Corners(p: Vec3): (c: seq<Vec3>)
      requires Valid()
      ensures |c| == 8
    {
      seq(8, n requires 0 <= n < 8 && Valid() => Gradient(p, n / 4, n / 2 % 2, n % 2))
    }

    /** The value `noise(p)` computes. */
    function NoiseAt(p: Vec3, interp: (seq<Vec3>, real, real, real) -> real): real
      requires Valid()
    {
      interp(Corners(p), Frac(p.x), Frac(p.y), Frac(p.z))
    }

    /** The sum `turb(p, depth)` takes the absolute value of: `depth`
        rounds of `weight * noise(temp_p)`, with the weight halved and the
        point doubled after each round. */
    function TurbSum(p: Vec3, rounds: nat, interp: (seq<Vec3>, real, real, real) -> real): real
      requires Valid()
    {
      if rounds == 0 then 0.0
      else TurbSum(p, rounds - 1, interp) + Pow(0.5, rounds - 1) * NoiseAt(Doubled(p, rounds - 1), interp)
    }
  }

  /** Corner `(di, dj, dk)` sits at position `4 di + 2 dj + dk` of the
      gradients handed to `perlin_interp`. */
  lemma CornersInOrder(t: Lattice, p: Vec3, di: nat, dj: nat, dk: nat)
    requires t.Valid() && di < 2 && dj < 2 && dk < 2
    ensures t.Corners(p)[4 * di + 2 * dj + dk] == t.Gradient(p, di, dj, dk)
  {
    var n := 4 * di + 2 * dj + dk;
    assert n / 4 == di && n / 2 % 2 == dj && n % 2 == dk;
  }

  /** Each table is looked up at `(i + d) mod 256` of the corner's lattice
      coordinate, so corners one cell apart wrap around the tables. */
  lemma HashIsMod256(t: Lattice, p: Vec3, di: nat, dj: nat, dk: nat)
    requires t.Valid() && di < 2 && dj < 2 && dk < 2
    ensures t.Hash(p, di, dj, dk)
      == BitXor(BitXor(t.permX[(Cell(p.x) + di) % 256], t.permY[(Cell(p.y) + dj) % 256]), t.permZ[(Cell(p.z) + dk) % 256])
  {
    var a, b, c := Index(Cell(p.x), di), Index(Cell(p.y), dj), Index(Cell(p.z), dk);
  }

  /** With noise bounded by `bound` everywhere, the turbulence sum of
      `rounds` rounds stays within `2 * bound * (1 - 0.5^rounds)`: the
      halving weights form a geometric series. */
  lemma {:induction false} TurbSumBounded(t: Lattice, p: Vec3, rounds: nat, interp: (seq<Vec3>, real, real, real) -> real, bound: real)
    requires t.Valid()
    requires forall q :: Abs(t.NoiseAt(q, interp)) <= bound
    ensures Abs(t.TurbSum(p, rounds, interp)) <= 2.0 * bound * (1.0 - Pow(0.5, rounds))
  {
    if rounds > 0 {
      TurbSumBounded(t, p, rounds - 1, interp, bound);
      TurbSumStep(t, p, rounds, interp, bound);
    }
  }

  /** One more round of `turb` adds the weighted noise at the doubled point. */
  lemma TurbSumUnfold(t: Lattice, p: Vec3, k: nat, interp: (seq<Vec3>, real, real, real) -> real, weight: real, n: real)
    requires t.Valid()
    requires weight == Pow(0.5, k) && n == t.NoiseAt(Doubled(p, k), interp)
    ensures t.TurbSum(p, k + 1, interp) == t.TurbSum(p, k, interp) + weight * n
  {
  }

  /** The induction step of `TurbSumBounded`. */
  lemma TurbSumStep(t: Lattice, p: Vec3, k: nat, interp: (seq<Vec3>, real, real, real) -> real, bound: real)
    requires t.Valid() && 0 < k
    requires Abs(t.TurbSum(p, k - 1, interp)) <= 2.0 * bound * (1.0 - Pow(0.5, k - 1))
    requires Abs(t.NoiseAt(Doubled(p, k - 1), interp)) <= bound
    ensures Abs(t.TurbSum(p, k, interp)) <= 2.0 * bound * (1.0 - Pow(0.5, k))
  {
    var s, n := t.TurbSum(p, k - 1, interp), t.NoiseAt(Doubled(p, k - 1), interp);
    assert t.TurbSum(p, k, interp) == s + Pow(0.5, k - 1) * n;
    StepBound(s, n, bound, k);
  }

  /** One more round of the geometric series: a partial sum of `k - 1`
      rounds plus a last round `0.5^(k-1) * n` with `|n| <= bound` stays
      within the bound for `k` rounds. */
  lemma StepBound(s: real, n: real, bound: real, k: nat)
    requires 0 < k
    requires Abs(s) <= 2.0 * bound * (1.0 - Pow(0.5, k - 1)) && Abs(n) <= bound
    ensures Abs(s + Pow(0.5, k - 1) * n) <= 2.0 * bound * (1.0 - Pow(0.5, k))
  {
    var w := Pow(0.5, k - 1);
    PowHalfPositive(k - 1);
    WeightedBound(w, n, bound);
    assert Pow(0.5, k) == w * 0.5;
    assert 2.0 * bound * (1.0 - w) + w * bound == 2.0 * bound * (1.0 - w * 0.5);
  }

  lemma {:induction false} PowHalfPositive(k: nat)
    ensures 0.0 < Pow(0.5, k) <= 1.0
  {
    if k > 0 {
      PowHalfPositive(k - 1);
    }
  }

  lemma WeightedBound(w: real, n: real, bound: real)
    requires 0.0 <= w && Abs(n) <= bound
    ensures Abs(w * n) <= w * bound
  {
    if n < 0.0 {
      assert w * n >= w * -bound;
    } else {
      assert w * n <= w * bound;
    }
  }

  /** The noise generator: three shuffled tables and the gradient vectors. */
  /** Writing the next element of `want` into `c` extends the prefix
      on which they agree by one. */
  lemma PrefixExtend(c: seq<Vec3>, want: seq<Vec3>, n: nat, g: Vec3)
    requires n < |c| == |want| && c[..n] == want[..n] && g == want[n]
    ensures c[n := g][..n + 1] == want[..n + 1]
  {
    assert forall m :: 0 <= m < n ==> c[m] == want[m] by {
      forall m | 0 <= m < n ensures c[m] == want[m] {
        assert c[..n][m] == want[..n][m];
      }
    }
  }

  class Perlin {
    const ranvec: array<Vec3>
    const permX: array<nat>
    const permY: array<nat>
    const permZ: array<nat>

    /** The tables' current contents. */
    ghost function Model(): Lattice
      reads this, ranvec, permX, permY, permZ
    {
      Lattice(ranvec[..], permX[..], permY[..], permZ[..])
    }

    /** Every table has `POINT_COUNT` entries, each `perm` entry an index
        of `ranvec`. */
    ghost predicate Valid()
      reads this, ranvec, permX, permY, permZ
    {
      Model().Valid()
    }

    /** `Perlin::new()`: `gradients` stands for the 256 random unit vectors
        that fill `ranvec`, `tx`, `ty`, `tz` for the shuffle targets of
        the three tables. */
    constructor (gradients: seq<Vec3>, tx: seq<nat>, ty: seq<nat>, tz: seq<nat>)
      requires |gradients| == PointCount
      requires ValidTargets(tx, PointCount) && ValidTargets(ty, PointCount) && ValidTargets(tz, PointCount)
      ensures Valid()
      ensures fresh(ranvec) && fresh(permX) && fresh(permY) && fresh(permZ)
      ensures Model() == Lattice(gradients, GeneratedTable(tx), GeneratedTable(ty), GeneratedTable(tz))
    {
      var vecs := new Vec3[PointCount](_ => Zero);
      for i := 0 to PointCount
        invariant forall k :: 0 <= k < i ==> vecs[k] == gradients[k]
      {
        vecs[i] := gradients[i];
      }
      var px := GenerateTable(tx);
      var py := GenerateTable(ty);
      var pz := GenerateTable(tz);
      ranvec, permX, permY, permZ := vecs, px, py, pz;
    }

    /** `noise(p)`: the fractional parts of `p` and the gradients of the
        eight corners of its cell, gathered in nested loops and passed to
        `perlin_interp` (here `interp`). The source's local array
        `c[di][dj][dk]` is a value; here it is the sequence `c` with
        `c[di][dj][dk]` at position `4 di + 2 dj + dk`. */
    method Noise(p: Vec3, interp: (seq<Vec3>, real, real, real) -> real) returns (r: real)
      requires Valid()
      ensures r == Model().NoiseAt(p, interp)
    {
      ghost var want := Model().Corners(p);
      var u := Frac(p.x);
      var v := Frac(p.y);
      var w := Frac(p.z);
      var i := Cell(p.x);
      var j := Cell(p.y);
      var k := Cell(p.z);
      var c := seq(8, _ => Zero);
      for di := 0 to 2
        invariant |c| == 8 && c[..4 * di] == want[..4 * di]
      {
        for dj := 0 to 2
          invariant |c| == 8 && c[..4 * di + 2 * dj] == want[..4 * di + 2 * dj]
        {
          for dk := 0 to 2
            invariant |c| == 8 && c[..4 * di + 2 * dj + dk] == want[..4 * di + 2 * dj + dk]
          {
            var g := ranvec[Xor3(permX[Index(i, di)], permY[Index(j, dj)], permZ[Index(k, dk)])];
            assert g == want[4 * di + 2 * dj + dk] by {
              CornersInOrder(Model(), p, di, dj, dk);
            }
            PrefixExtend(c, want, 4 * di + 2 * dj + dk, g);
            c := c[4 * di + 2 * dj + dk := g];
          }
        }
      }
      assert c == c[..8] == want;
      r := interp(c, u, v, w);
    }

    /** `turb(p, depth)`. The loop runs `0..depth`, so no rounds at all
        when `depth <= 0`. */
    method Turb(p: Vec3, depth: int, interp: (seq<Vec3>, real, real, real) -> real) returns (r: real)
      requires Valid()
      ensures r == Abs(Model().TurbSum(p, if depth <= 0 then 0 else depth, interp))
      ensures 0.0 <= r
      ensures depth <= 0 ==> r == 0.0
    {
      ghost var t := Model();
      var accum := 0.0;
      var tempP := new MutableVec3(p);
      var weight := 1.0;
      var i := 0;
      while i < depth
        invariant 0 <= i && (i <= depth || i == 0)
        invariant tempP.Valid() && fresh(tempP.e)
        invariant Valid() && Model() == t
        invariant accum == t.TurbSum(p, i, interp)
        invariant weight == Pow(0.5, i)
        invariant tempP.Value() == Doubled(p, i)
      {
        var n := Noise(tempP.Value(), interp);
        TurbSumUnfold(t, p, i, interp, weight, n);
        accum := accum + weight * n;
        weight := weight * 0.5;
        tempP.MulAssign(2.0);
        i := i + 1;
      }
      assert i == if depth <= 0 then 0 else depth;
      r := Abs(accum);
    }
  }
}
