/** Powers of two, alignment and the exclusive-or that the buddy allocator uses to find a sibling. */
module Bits {

  function Pow2(n: nat): (r: nat)
    ensures r > 0
  {
    if n == 0 then 1 else 2 * Pow2(n - 1)
  }

  /** The low `o` bits of `x` are clear. */
  predicate Aligned(x: nat, o: nat) {
    o == 0 || (x % 2 == 0 && Aligned(x / 2, o - 1))
  }

  /** Bitwise exclusive or. */
  function Xor(a: nat, b: nat): nat
    decreases a + b
  {
    if a + b == 0 then 0 else 2 * Xor(a / 2, b / 2) + (a % 2 + b % 2) % 2
  }

  /** Bitwise and. */
  function And(a: nat, b: nat): nat
    decreases a + b
  {
    if a == 0 || b == 0 then 0 else 2 * And(a / 2, b / 2) + (if a % 2 == 1 && b % 2 == 1 then 1 else 0)
  }

  /** The code tests alignment by masking with `2^o - 1`. */
  lemma {:induction false} MaskTestsAlignment(x: nat, o: nat)
    ensures And(x, Pow2(o) - 1) == 0 <==> Aligned(x, o)
  {
    if o > 0 && x > 0 {
      MaskTestsAlignment(x / 2, o - 1);
      assert (Pow2(o) - 1) / 2 == Pow2(o - 1) - 1;
    } else if o > 0 {
      ZeroAligned(o);
    }
  }

  lemma {:induction false} ZeroAligned(o: nat)
    ensures Aligned(0, o)
  {
    if o > 0 { ZeroAligned(o - 1); }
  }

  lemma {:induction false} Pow2Monotone(i: nat, j: nat)
    requires i <= j
    ensures Pow2(i) <= Pow2(j)
    ensures i < j ==> 2 * Pow2(i) <= Pow2(j)
  {
    if i < j { Pow2Monotone(i, j - 1); }
  }

  lemma {:induction false} Pow2Sum(i: nat, j: nat)
    ensures Pow2(i + j) == Pow2(i) * Pow2(j)
  {
    if i > 0 {
      Pow2Sum(i - 1, j);
      assert Pow2(i + j) == 2 * Pow2(i - 1 + j);
    }
  }

  lemma Pow2Of20()
    ensures Pow2(20) == 0x10_0000
  {
    assert Pow2(3) == 8 && Pow2(5) == 4 * Pow2(3);
    Pow2Sum(5, 5);
    Pow2Sum(10, 10);
  }

  lemma {:induction false} AlignedWeaker(x: nat, i: nat, j: nat)
    requires i <= j && Aligned(x, j)
    ensures Aligned(x, i)
  {
    if i > 0 { AlignedWeaker(x / 2, i - 1, j - 1); }
  }

  /** Two aligned power-of-two ranges that meet are nested. */
  lemma {:induction false} NestedIfOverlap(a: nat, i: nat, b: nat, j: nat)
    requires i <= j && Aligned(a, i) && Aligned(b, j)
    requires a < b + Pow2(j) && b < a + Pow2(i)
    ensures b <= a && a + Pow2(i) <= b + Pow2(j)
    ensures i == j ==> a == b
  {
    if i > 0 { NestedIfOverlap(a / 2, i - 1, b / 2, j - 1); }
    if i == j { Pow2Monotone(i, j); }
  }

  /** Both halves of an aligned range are aligned, and the right half no further. */
  lemma {:induction false} HalvesAligned(a: nat, o: nat)
    requires Aligned(a, o + 1)
    ensures Aligned(a, o) && Aligned(a + Pow2(o), o) && !Aligned(a + Pow2(o), o + 1)
  {
    if o > 0 {
      HalvesAligned(a / 2, o - 1);
      assert (a + Pow2(o)) / 2 == a / 2 + Pow2(o - 1);
    }
  }

  lemma {:induction false} RightHalf(a: nat, o: nat)
    requires Aligned(a, o) && !Aligned(a, o + 1)
    ensures a >= Pow2(o) && Aligned(a - Pow2(o), o + 1)
  {
    if o > 0 {
      RightHalf(a / 2, o - 1);
      assert (a - Pow2(o)) / 2 == a / 2 - Pow2(o - 1);
    }
  }

  lemma {:induction false} XorZero(a: nat)
    ensures Xor(a, 0) == a
  {
    if a > 0 { XorZero(a / 2); }
  }

  /** Flipping bit `o` of an aligned number moves to the other half of the enclosing pair. */
  lemma {:induction false} XorSibling(a: nat, o: nat)
    requires Aligned(a, o)
    ensures Aligned(a, o + 1) ==> Xor(a, Pow2(o)) == a + Pow2(o)
    ensures !Aligned(a, o + 1) ==> a >= Pow2(o) && Xor(a, Pow2(o)) == a - Pow2(o)
  {
    if o == 0 {
      XorZero(a / 2);
      var b := Pow2(o);
      assert b == 1 && Xor(a, b) == 2 * Xor(a / 2, b / 2) + (a % 2 + b % 2) % 2;
      assert Aligned(a, o + 1) <==> a % 2 == 0;
    } else {
      XorSibling(a / 2, o - 1);
    }
  }

  lemma HalveMod(x: nat, m: nat)
    requires m > 0
    ensures x % (2 * m) == 2 * ((x / 2) % m) + x % 2
  {
    var q, r := x / 2 / m, (x / 2) % m;
    assert x / 2 == q * m + r;
    assert x == q * (2 * m) + (2 * r + x % 2);
    ModUnique(x, 2 * m, q, 2 * r + x % 2);
  }

  lemma MulBounds(d: int, m: nat)
    ensures d >= 1 ==> d * m >= m
    ensures d <= -1 ==> d * m <= -(m as int)
  {
  }

  lemma MulMonotone(i: nat, j: nat, m: nat)
    ensures i <= j ==> i * m <= j * m
  {
  }

  lemma ModUnique(x: nat, m: nat, q: nat, r: nat)
    requires m > 0 && r < m && x == q * m + r
    ensures x % m == r && x / m == q
  {
    var d := x / m - q;
    assert x == (x / m) * m + x % m;
    assert d * m == r - x % m;
    MulBounds(d, m);
  }

  /** Masking with `2^o - 1` is the remainder. */
  lemma {:induction false} MaskIsMod(x: nat, o: nat)
    ensures And(x, Pow2(o) - 1) == x % Pow2(o)
  {
    if o > 0 {
      MaskIsMod(x / 2, o - 1);
      HalveMod(x, Pow2(o - 1));
      assert (Pow2(o) - 1) / 2 == Pow2(o - 1) - 1 && (Pow2(o) - 1) % 2 == 1;
    }
  }

  lemma {:induction false} AndSelf(x: nat)
    ensures And(x, x) == x
  {
    if x > 0 { AndSelf(x / 2); }
  }

  /** `a & (a - 1)` is zero only for powers of two. */
  lemma {:induction false} SingleBit(a: nat) returns (k: nat)
    requires a > 0 && And(a, a - 1) == 0
    ensures a == Pow2(k)
  {
    if a % 2 == 1 {
      AndSelf(a / 2);
      assert (a - 1) / 2 == a / 2;
      k := 0;
    } else {
      assert (a - 1) / 2 == a / 2 - 1;
      k := SingleBit(a / 2);
      k := k + 1;
    }
  }

  const U64: nat := 0x1_0000_0000_0000_0000

  /** `v & ~(a - 1)`. */
  function AlignDown(v: nat, a: nat): int
    requires a > 0
  {
    v - And(v, a - 1)
  }

  /** `(v + (a - 1)) & ~(a - 1)` on 64 bits. */
  function AlignUp(v: nat, a: nat): int
    requires a > 0
  {
    AlignDown((v + (a - 1)) % U64, a)
  }

  lemma AlignDownIs(v: nat, k: nat)
    ensures AlignDown(v, Pow2(k)) == v - v % Pow2(k)
  {
    MaskIsMod(v, k);
  }

  lemma MultipleNotBelow(v: nat, a: nat, q: nat)
    requires a > 0 && v <= q && q % a == 0
    ensures (v + (a - 1)) / a * a <= q
  {
    var n, u := q / a, (v + (a - 1)) / a;
    assert q == n * a;
    MulMonotone(n + 1, u, a);
  }

  /** `w - w % a` is the least multiple of `a` that is not below `v`, for `w = v + a - 1`. */
  lemma RoundUp(v: nat, a: nat, w: nat)
    requires a > 0 && w == v + (a - 1)
    ensures v <= w - w % a && (w - w % a) % a == 0
    ensures forall q: nat :: v <= q && q % a == 0 ==> w - w % a <= q
  {
    assert w - w % a == w / a * a;
    ModUnique(w / a * a, a, w / a, 0);
    forall q: nat | v <= q && q % a == 0 ensures w / a * a <= q {
      MultipleNotBelow(v, a, q);
    }
  }

  /** Without overflow, rounding up yields the least multiple that is not smaller. */
  lemma AlignUpLeast(v: nat, k: nat)
    requires v + (Pow2(k) - 1) < U64
    ensures v <= AlignUp(v, Pow2(k)) < U64 && AlignUp(v, Pow2(k)) % Pow2(k) == 0
    ensures forall q: nat :: v <= q && q % Pow2(k) == 0 ==> AlignUp(v, Pow2(k)) <= q
  {
    hide Pow2, AlignDown;
    var w := v + (Pow2(k) - 1);
    AlignDownIs(w, k);
    assert AlignUp(v, Pow2(k)) == w - w % Pow2(k);
    hide *;
    RoundUp(v, Pow2(k), w);
  }
}
