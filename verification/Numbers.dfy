/** The number conversions behind `ceil`, `ceil32` and `ceil_div` (src/fat32.c, src/math.c), and counting. */
module Numbers {

  /** The weight of the last mantissa bit when `n` is stored with 24 bits. */
  function Ulp(n: nat): (s: nat)
    ensures s >= 1
    ensures n < 0x100_0000 ==> s == 1
  {
    if n < 0x100_0000 then 1 else 2 * Ulp(n / 2)
  }

  /** The multiple of `s` nearest to `n`; a tie goes to the even multiple. */
  function RoundToMultiple(n: nat, s: nat): nat
    requires s > 0
  {
    var down := n - n % s;
    if 2 * (n % s) > s || (2 * (n % s) == s && n / s % 2 == 1) then down + s else down
  }

  /** Conversion of an unsigned integer to IEEE 754 binary32, round to nearest, ties to even. */
  function Binary32(n: nat): (r: nat)
    ensures n < 0x100_0000 ==> r == n
  {
    if n < 0x100_0000 then n else RoundToMultiple(n, Ulp(n))
  }

  /** The last of 24 mantissa bits: it weighs so much that 24 bits are needed and suffice. */
  lemma {:induction false} UlpScale(n: nat)
    requires n >= 0x80_0000
    ensures Ulp(n) * 0x80_0000 <= n < Ulp(n) * 0x100_0000
  {
    if n >= 0x100_0000 {
      UlpScale(n / 2);
    }
  }

  /** No multiple of `s` is nearer to `n` than `r`, and if another is as near, `even` says that `r` is the even one. */
  predicate AsNear(n: nat, s: nat, r: nat, even: bool) {
    && 2 * r <= 2 * n + s && 2 * n <= 2 * r + s
    && (2 * r == 2 * n + s || 2 * n == 2 * r + s ==> even)
  }

  /** `r` is the multiple of `s` nearest to `n`, the even one of two. */
  ghost predicate NearestMultiple(n: nat, s: nat, r: nat) {
    exists q: nat :: r == q * s && AsNear(n, s, r, q % 2 == 0)
  }

  /** Rounding the `q`th multiple `m` of `s` and `rem` more. */
  lemma NearFromParts(n: nat, s: nat, m: nat, q: nat, rem: nat)
    requires n == m + rem && rem < s
    ensures if 2 * rem > s || (2 * rem == s && q % 2 == 1) then AsNear(n, s, m + s, (q + 1) % 2 == 0)
            else AsNear(n, s, m, q % 2 == 0)
  {
  }

  lemma NearestWitness(n: nat, s: nat, r: nat, q: nat)
    requires r == q * s && AsNear(n, s, r, q % 2 == 0)
    ensures NearestMultiple(n, s, r)
  {
  }

  lemma RoundedNearest(n: nat, s: nat)
    requires s > 0
    ensures NearestMultiple(n, s, RoundToMultiple(n, s))
  {
    var q, rem := n / s, n % s;
    var m := q * s;
    NearFromParts(n, s, m, q, rem);
    if RoundToMultiple(n, s) == m {
      NearestWitness(n, s, m, q);
    } else {
      assert (q + 1) * s == m + s;
      NearestWitness(n, s, m + s, q + 1);
    }
  }

  /** IEEE 754: the conversion gives the nearest number of 24 bits, and of two equally near ones the even one. */
  lemma Binary32Nearest(n: nat)
    ensures NearestMultiple(n, Ulp(n), Binary32(n))
  {
    if n >= 0x100_0000 {
      RoundedNearest(n, Ulp(n));
    } else {
      assert n == n * 1;
    }
  }

  lemma RoundedToFour(n: nat)
    requires 0x200_0000 <= n < 0x400_0000
    ensures Binary32(n) == RoundToMultiple(n, 4)
  {
    assert Ulp(n / 2 / 2) == 1;
    assert Ulp(n / 2) == 2;
  }

  lemma RoundedLarge(n: nat)
    requires n >= 0x400_0000
    ensures Binary32(n) > 0x200_0000
  {
    Binary32Nearest(n);
    UlpScale(n);
  }

  lemma RoundedSmall(n: nat)
    requires n < 0x200_0000
    ensures Binary32(n) <= 0x200_0000
  {
    if n >= 0x100_0000 { assert Ulp(n / 2) == 1; }
  }

  /** Two more than 2^25 are still rounded to it, and no larger number is. */
  lemma RoundedTo25Bits(n: nat)
    ensures Binary32(n) <= 0x200_0000 <==> n <= 0x200_0002
  {
    if n < 0x200_0000 {
      RoundedSmall(n);
    } else if n < 0x400_0000 {
      RoundedToFour(n);
    } else {
      RoundedLarge(n);
    }
  }

  function CeilDiv(a: nat, b: nat): nat
    requires b > 0
  {
    (a + b - 1) / b
  }

  /** A subset has no more elements. */
  lemma {:induction false} SubsetCard<T>(a: set<T>, b: set<T>)
    requires a <= b
    ensures |a| <= |b|
  {
    if a != {} {
      var x :| x in a;
      SubsetCard(a - {x}, b - {x});
    }
  }
}
