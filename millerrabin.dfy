/** The Miller-Rabin example program, with Java `int` arithmetic written out
    and the random witnesses passed in. Java's `x >> 1` is floor division by
    two and `x & 1` is the Euclidean `x % 2`, for every `int`. */
module MillerRabin {
  import opened Base

  /** The largest modulus for which `result * base` and `base * base` of two
      residues stay below 2^31. */
  const MAX_MOD: int := 46340

  lemma {:induction false} PowAdd(b: int, e1: nat, e2: nat)
    ensures Pow(b, e1 + e2) == Pow(b, e1) * Pow(b, e2)
    decreases e1
  {
    if e1 > 0 {
      PowAdd(b, e1 - 1, e2);
      assert Pow(b, e1 + e2) == b * Pow(b, e1 - 1 + e2);
      assert b * (Pow(b, e1 - 1) * Pow(b, e2)) == (b * Pow(b, e1 - 1)) * Pow(b, e2);
    }
  }

  lemma PowSquare(b: int, e: nat)
    ensures Pow(b * b, e) == Pow(b, 2 * e)
  {
    PowAdd(b, e, e);
    PowOfProduct(b, b, e);
  }

  lemma {:induction false} PowOfProduct(a: int, b: int, e: nat)
    ensures Pow(a * b, e) == Pow(a, e) * Pow(b, e)
    decreases e
  {
    if e > 0 {
      PowOfProduct(a, b, e - 1);
      Rearrange(a, b, Pow(a, e - 1), Pow(b, e - 1));
    }
  }

  lemma Rearrange(a: int, b: int, x: int, y: int)
    ensures (a * b) * (x * y) == (a * x) * (b * y)
  {
  }

  lemma ModMulLeft(a: int, b: int, m: int)
    requires m > 0
    ensures (a * b) % m == ((a % m) * b) % m
  {
    var q, r := a / m, a % m;
    var t, s := (r * b) / m, (r * b) % m;
    assert a == m * q + r;
    assert r * b == m * t + s;
    assert a * b == m * (q * b + t) + s by {
      assert a * b == (m * q + r) * b == m * q * b + r * b;
    }
    DivUnique(a * b, m, q * b + t, s);
  }

  /** Reducing either factor first does not change a product's residue. */
  lemma ModMul(a: int, b: int, m: int)
    requires m > 0
    ensures (a * b) % m == ((a % m) * (b % m)) % m
  {
    ModMulLeft(a, b, m);
    ModMulLeft(b, a % m, m);
    assert (a % m) * b == b * (a % m);
    assert (b % m) * (a % m) == (a % m) * (b % m);
  }

  lemma {:induction false} PowMod(b: int, e: nat, m: int)
    requires m > 0
    ensures Pow(b % m, e) % m == Pow(b, e) % m
    decreases e
  {
    if e > 0 {
      PowMod(b, e - 1, m);
      var r := b % m;
      ModIdem(b, m);
      var x, y := Pow(r, e - 1), Pow(b, e - 1);
      assert Pow(r, e) == r * x;
      assert Pow(b, e) == b * y;
      ModMulCongruent(r, x, b, y, m);
    }
  }

  lemma PowTwo(x: int)
    ensures Pow(x, 2) == x * x
  {
    assert Pow(x, 1) == x;
  }

  lemma DoubleFactor(d: int, p: int)
    ensures d * (2 * p) == d * p + d * p
  {
  }

  /** A residue is its own residue. */
  lemma ModIdem(b: int, m: int)
    requires m > 0
    ensures (b % m) % m == b % m
  {
    DivUnique(b % m, m, 0, b % m);
  }

  /** Factors with equal residues give products with equal residues. */
  lemma ModMulCongruent(a: int, x: int, b: int, y: int, m: int)
    requires m > 0 && a % m == b % m && x % m == y % m
    ensures (a * x) % m == (b * y) % m
  {
    ModMul(a, x, m);
    ModMul(b, y, m);
  }

  lemma MulLe(a: int, b: int, c: int, d: int)
    requires 0 <= a <= c && 0 <= b <= d
    ensures a * b <= c * d
  {
    assert c * b - a * b == (c - a) * b;
    assert c * d - c * b == c * (d - b);
  }

  /** The product of two residues of a modulus up to `MAX_MOD` is a Java
      `int` that is not negative. */
  lemma ResidueProduct(x: int, y: int, m: int)
    requires 0 <= x < m && 0 <= y < m && m <= MAX_MOD
    ensures 0 <= x * y < 0x8000_0000
  {
    MulLe(x, y, m - 1, m - 1);
    MulLe(m - 1, m - 1, MAX_MOD, MAX_MOD);
  }

  /** One iteration of `modpow`'s loop keeps `result * base^power` modulo m. */
  lemma ModPowStep(result: int, base: int, power: nat, m: int)
    requires m > 0 && power > 0
    ensures ((if power % 2 == 1 then (result * base) % m else result) * Pow((base * base) % m, power / 2)) % m
            == (result * Pow(base, power)) % m
  {
    var h := power / 2;
    var P := Pow(base * base, h);
    var Q := Pow((base * base) % m, h);
    PowMod(base * base, h, m);
    PowSquare(base, h);
    PowAdd(base, 2 * h, power % 2);
    assert power == 2 * h + power % 2;
    assert Pow(base, power) == P * Pow(base, power % 2);
    if power % 2 == 1 {
      assert Pow(base, 1) == base;
      ModMul((result * base) % m, Q, m);
      ModMul(result * base, P, m);
      ModIdem(result * base, m);
      assert (result * base) * P == result * (P * base);
    } else {
      assert Pow(base, 0) == 1;
      ModMul(result, Q, m);
      ModMul(result, P, m);
    }
  }

  /** `modpow`: square-and-multiply, each product reduced modulo `mod`. */
  method ModPow(b: int, p: int, m: int) returns (r: int)
    requires 2 <= m <= MAX_MOD && 0 <= b < m && p >= 0
    ensures r == Pow(b, p) % m
    ensures 0 <= r < m
  {
    var result := 1;
    var base := b;
    var power := p;
    while power > 0
      invariant 0 <= result < m && 0 <= base < m && 0 <= power
      invariant (result * Pow(base, power)) % m == Pow(b, p) % m
      decreases power
    {
      ModPowStep(result, base, power, m);
      if power % 2 == 1 {
        ResidueProduct(result, base, m);
        result := TruncRem(Wrap32(result * base), m);
      }
      ResidueProduct(base, base, m);
      base := TruncRem(Wrap32(base * base), m);
      power := power / 2;
    }
    assert result * Pow(base, power) == result;
    DivUnique(result, m, 0, result);
    r := result;
  }

  /** The odd part of `x` and the exponent of two that `x` contains. */
  function OddPart(x: nat): nat
    requires x >= 1
    decreases x
  {
    if x % 2 == 0 then OddPart(x / 2) else x
  }

  function TwoExp(x: nat): nat
    requires x >= 1
    decreases x
  {
    if x % 2 == 0 then 1 + TwoExp(x / 2) else 0
  }

  lemma {:induction false} OddPartFactors(x: nat)
    requires x >= 1
    ensures OddPart(x) % 2 == 1 && x == OddPart(x) * Pow2(TwoExp(x))
    decreases x
  {
    if x % 2 == 0 {
      OddPartFactors(x / 2);
      var d, s := OddPart(x / 2), TwoExp(x / 2);
      assert d * Pow2(s + 1) == 2 * (d * Pow2(s)) by {
        DoubleFactor(d, Pow2(s));
      }
    }
  }

  /** `while ((d & 1) == 0) d = d >> 1;`: strips the factors of two. */
  method StripTwos(x: int) returns (d: int)
    requires x >= 1
    ensures d == OddPart(x) && d % 2 == 1
    ensures x == d * Pow2(TwoExp(x))
  {
    d := x;
    while d % 2 == 0
      invariant d >= 1 && OddPart(d) == OddPart(x)
      decreases d
    {
      d := d / 2;
    }
    OddPartFactors(x);
  }

  /** The value `x` holds after `j` squarings: a^(d * 2^j) mod n. */
  function Probe(n: int, a: int, d: nat, j: nat): int
    requires n > 0
  {
    Pow(a, d * Pow2(j)) % n
  }

  /** The condition one round of `prime_miller` accepts: with
      n - 1 = d * 2^s and d odd, a^d = 1, or a^(d * 2^j) = n - 1 for some
      j <= s (modulo n). The loop also stops at t = n - 1, so j = s is
      included. */
  ghost predicate StrongProbablePrime(n: int, a: int)
    requires n >= 2
  {
    var d := OddPart(n - 1);
    Probe(n, a, d, 0) == 1 || exists j: nat :: j <= TwoExp(n - 1) && Probe(n, a, d, j) == n - 1
  }

  /** Each squaring step: the next probe is the square of the previous one. */
  lemma ProbeStep(n: int, a: int, d: nat, j: nat)
    requires n > 0
    ensures Probe(n, a, d, j + 1) == (Probe(n, a, d, j) * Probe(n, a, d, j)) % n
    ensures Pow(Probe(n, a, d, j), 2) == Probe(n, a, d, j) * Probe(n, a, d, j)
  {
    var e := d * Pow2(j);
    assert d * Pow2(j + 1) == e + e by {
      DoubleFactor(d, Pow2(j));
    }
    PowAdd(a, e, e);
    var A := Pow(a, e);
    ModMul(A, A, n);
    var x := Probe(n, a, d, j);
    assert x == A % n;
    ModIdem(A, n);
    PowTwo(x);
  }

  /** Once a probe is 1 it stays 1. */
  lemma {:induction false} ProbeStaysOne(n: int, a: int, d: nat, j: nat, i: nat)
    requires n >= 2 && j <= i && Probe(n, a, d, j) == 1
    ensures Probe(n, a, d, i) == 1
    decreases i - j
  {
    if j < i {
      ProbeStaysOne(n, a, d, j, i - 1);
      ProbeStep(n, a, d, i - 1);
      DivUnique(1, n, 0, 1);
    }
  }

  /** `t << 1` cannot overflow: below `n - 1` the next doubling is still
      at most `n - 1`. */
  lemma DoublingBound(d: nat, j: nat, s: nat)
    requires j < s
    ensures 2 * (d * Pow2(j)) <= d * Pow2(s)
  {
    Pow2Monotone(j + 1, s);
    MulLe(d, Pow2(j + 1), d, Pow2(s));
    assert d * Pow2(j + 1) == 2 * (d * Pow2(j));
  }

  /** `d * 2^j` is even exactly when `j >= 1`, for odd `d`. */
  lemma EvenIffShifted(d: nat, j: nat)
    requires d % 2 == 1
    ensures (d * Pow2(j)) % 2 == 0 <==> j >= 1
  {
    if j >= 1 {
      assert d * Pow2(j) == 2 * (d * Pow2(j - 1));
    } else {
      assert d * Pow2(j) == d;
    }
  }

  /** One iteration of the inner `while` loop: `x = modpow(x, 2, n)` and
      `t <<= 1` move from probe `j` to probe `j + 1`. */
  method SquareStep(n: int, a: int, d: nat, t: int, x: int, ghost j: nat, ghost s: nat)
    returns (t': int, x': int)
    requires 5 <= n <= MAX_MOD && d * Pow2(s) == n - 1 && j < s
    requires t == d * Pow2(j) && x == Probe(n, a, d, j) && 0 <= x < n
    ensures t' == d * Pow2(j + 1) && x' == Probe(n, a, d, j + 1) && 0 <= x' < n
  {
    ProbeStep(n, a, d, j);
    x' := ModPow(x, 2, n);
    DoublingBound(d, j, s);
    assert d * Pow2(j + 1) == 2 * t by {
      DoubleFactor(d, Pow2(j));
    }
    t' := Wrap32(t * 2);
  }

  /** Where the inner loop stopped decides the round: at probe `n - 1` it
      passes, at probe 1 right away it passes, otherwise it fails. */
  lemma RoundVerdict(n: int, a: int, d: nat, j: nat, t: int, x: int)
    requires 5 <= n && n % 2 == 1 && d == OddPart(n - 1) && d % 2 == 1 && n - 1 == d * Pow2(TwoExp(n - 1))
    requires j <= TwoExp(n - 1) && t == d * Pow2(j) && x == Probe(n, a, d, j)
    requires forall i: nat :: i < j ==> Probe(n, a, d, i) != 1 && Probe(n, a, d, i) != n - 1
    requires !(t != n - 1 && x != 1 && x != n - 1)
    ensures !(x != n - 1 && t % 2 == 0) <==> StrongProbablePrime(n, a)
  {
    var s := TwoExp(n - 1);
    EvenIffShifted(d, j);
    if x == n - 1 {
      assert Probe(n, a, d, j) == n - 1;
    } else if j == 0 {
      assert x == 1;
    } else {
      if j < s {
        ShiftedBelow(d, j, s);
      }
      Stuck(n, a, d, j);
    }
  }

  /** The body of the `for` loop in `prime_miller` for the witness
      `1 + q`: `t` runs through `d * 2^j` and `x` through the probes until
      one of the loop's exits, and the round fails when `x != n - 1` and
      `t` is even. */
  method Round(n: int, d: int, q: int) returns (pass: bool)
    requires 5 <= n <= MAX_MOD && n % 2 == 1 && d == OddPart(n - 1) && 0 <= q <= n - 3
    ensures pass <==> StrongProbablePrime(n, 1 + q)
  {
    ghost var s := TwoExp(n - 1);
    OddPartFactors(n - 1);
    var t := d;
    var a := 1 + q;
    var x := ModPow(a, t, n);
    ghost var j: nat := 0;
    assert t == d * Pow2(0);
    while t != n - 1 && x != 1 && x != n - 1
      invariant j <= s && t == d * Pow2(j) && x == Probe(n, a, d, j) && 0 <= x < n
      invariant forall i: nat :: i < j ==> Probe(n, a, d, i) != 1 && Probe(n, a, d, i) != n - 1
      decreases s - j
    {
      t, x := SquareStep(n, a, d, t, x, j, s);
      j := j + 1;
    }
    RoundVerdict(n, a, d, j, t, x);
    pass := !(x != n - 1 && t % 2 == 0);
  }

  /** `d * 2^j` stays below `d * 2^s` for `j < s`. */
  lemma ShiftedBelow(d: nat, j: nat, s: nat)
    requires d >= 1 && j < s
    ensures d * Pow2(j) < d * Pow2(s)
  {
    DoublingBound(d, j, s);
    MulLe(1, 1, d, Pow2(j));
  }

  /** A round that stopped at a probe other than `n - 1` after at least one
      squaring, because the probe reached 1 or `t` reached `n - 1`, rejects:
      no probe up to `s` is `n - 1` and the first is not 1. */
  lemma Stuck(n: int, a: int, d: nat, j: nat)
    requires 5 <= n && d == OddPart(n - 1) && j >= 1 && j <= TwoExp(n - 1)
    requires Probe(n, a, d, j) != n - 1
    requires forall i: nat :: i < j ==> Probe(n, a, d, i) != 1 && Probe(n, a, d, i) != n - 1
    requires j == TwoExp(n - 1) || Probe(n, a, d, j) == 1
    ensures !StrongProbablePrime(n, a)
  {
    var s := TwoExp(n - 1);
    forall i: nat | i <= s
      ensures Probe(n, a, d, i) != n - 1
    {
      if j < i {
        ProbeStaysOne(n, a, d, j, i);
      }
    }
    assert Probe(n, a, d, 0) != 1;
  }

  /** `prime_miller` with the 20 random offsets `q` as `qs`, each drawn from
      `[0, n - 3]` (`(int)(Math.random() * (n - 2))`, 0 when `n <= 3`). */
  method PrimeMiller(n: int, qs: seq<int>) returns (r: bool)
    requires 2 <= n <= MAX_MOD && |qs| == 20
    requires forall k :: 0 <= k < |qs| ==> 0 <= qs[k] && (qs[k] <= n - 3 || qs[k] == 0)
    ensures n == 2 || n == 3 ==> r
    ensures n > 3 && n % 2 == 0 ==> !r
    ensures n > 3 && n % 2 == 1 ==>
              (r <==> forall k :: 0 <= k < 20 ==> StrongProbablePrime(n, 1 + qs[k]))
  {
    if n == 2 || n == 3 {
      return true;
    }
    if n % 2 == 0 {
      return false;
    }
    var d := StripTwos(n - 1);
    for k := 0 to 20
      invariant forall i :: 0 <= i < k ==> StrongProbablePrime(n, 1 + qs[i])
    {
      var pass := Round(n, d, qs[k]);
      if !pass {
        return false;
      }
    }
    return true;
  }

  /** A round worked out: 2 is an accepted witness for the prime 7
      (6 = 3 * 2 and 2^3 = 8 = 1 modulo 7). */
  lemma SevenAccepted()
    ensures StrongProbablePrime(7, 2)
  {
    assert OddPart(3) == 3;
    assert OddPart(6) == 3;
    assert Pow(2, 1) == 2 && Pow(2, 2) == 4 && Pow(2, 3) == 8;
    assert Probe(7, 2, 3, 0) == 1;
  }

  /** The probes of 2 modulo 9 with d = 1: 2, 4, 7 and 4. */
  lemma NineProbes()
    ensures Probe(9, 2, 1, 0) == 2 && Probe(9, 2, 1, 1) == 4
    ensures Probe(9, 2, 1, 2) == 7 && Probe(9, 2, 1, 3) == 4
  {
    assert Pow(2, 1) == 2;
    assert Probe(9, 2, 1, 0) == 2;
    ProbeStep(9, 2, 1, 0);
    ProbeStep(9, 2, 1, 1);
    ProbeStep(9, 2, 1, 2);
  }

  /** None of those probes is 8 = 9 - 1. */
  lemma NineProbeNotMinusOne(j: nat)
    requires j <= 3
    ensures Probe(9, 2, 1, j) != 8
  {
    NineProbes();
    if j == 0 {
    } else if j == 1 {
    } else if j == 2 {
    } else {
      assert j == 3;
    }
  }

  /** 8 = 1 * 2^3. */
  lemma EightSplit()
    ensures OddPart(8) == 1 && TwoExp(8) == 3
  {
    assert OddPart(2) == 1 && TwoExp(2) == 1;
  }

  /** A round worked out: 2 rejects 9 = 3 * 3, whose probes modulo 9 are
      2, 4, 7 and 4 (8 = 1 * 2^3). */
  lemma NineRejected(n: int, a: int)
    requires n == 9 && a == 2
    ensures !StrongProbablePrime(n, a)
  {
    EightSplit();
    NineProbes();
    forall j: nat | j <= 3
      ensures Probe(n, a, 1, j) != n - 1
    {
      NineProbeNotMinusOne(j);
    }
  }
}
