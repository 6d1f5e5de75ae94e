/** The sieve of Eratosthenes of the example program: `sieve[i]` stands for
    the number `i + 1`. */
module EratosthenesSieve {
  import opened Base

  /** The array size the program uses. */
  const MAX: nat := 100000

  predicate Divides(d: int, n: int) {
    d != 0 && n % d == 0
  }

  predicate IsPrime(n: int) {
    n >= 2 && forall d :: 2 <= d < n ==> !Divides(d, n)
  }

  /** `n` has a factor `d` with `2 <= d <= i` and `d * d <= n`: removed by
      the passes for `1..i`. */
  ghost predicate HasSmallFactor(n: int, i: int) {
    exists d :: 2 <= d <= i && d * d <= n && Divides(d, n)
  }

  lemma MultipleDivides(d: int, q: int)
    requires d >= 1
    ensures Divides(d, d * q)
  {
    DivUnique(d * q, d, q, 0);
  }

  lemma DividesTransitive(d: int, p: int, n: int)
    requires d >= 1 && p >= 1 && Divides(d, p) && Divides(p, n)
    ensures Divides(d, n)
  {
    var a := p / d;
    var b := n / p;
    assert n == d * (a * b) by {
      assert p == d * a;
      assert n == p * b;
    }
    MultipleDivides(d, a * b);
  }

  lemma SquareAtLeast(i: int)
    requires i >= 0
    ensures i <= i * i
  {
    if i > 0 {
      MulAtLeast(i, i);
    }
  }

  /** Multiplying by a positive number keeps strict order. */
  lemma MulMonotone(p: int, a: int, b: int)
    requires p >= 1
    ensures a < b <==> p * a < p * b
  {
    if a < b {
      assert p * b - p * a == p * (b - a);
      MulAtLeast(p, b - a);
    }
    if b <= a {
      assert p * a - p * b == p * (a - b);
      if b < a { MulAtLeast(p, a - b); }
    }
  }

  /** Squaring keeps strict order on non-negative numbers. */
  lemma SquareMonotone(a: int, b: int)
    requires 0 <= a && 0 <= b
    ensures a < b ==> a * a < b * b
  {
    if a < b {
      if a > 0 { MulMonotone(a, a, b); }
      MulMonotone(b, a, b);
    }
  }

  /** A square no larger than `i * i` has its root no larger than `i`. */
  lemma RootBound(d: int, i: int)
    requires d >= 0 && i >= 0 && d * d <= i * i
    ensures d <= i
  {
    SquareMonotone(i, d);
  }

  /** A factor whose square does not exceed `n` is a proper factor. */
  lemma SmallFactorIsProper(d: int, n: int)
    requires 2 <= d && d * d <= n
    ensures d < n
  {
    MulMonotone(d, 1, d);
  }

  /** The cofactor of a proper factor is at least 2. */
  lemma CofactorAtLeastTwo(d: int, e: int)
    requires d >= 1
    ensures d < d * e ==> e >= 2
  {
    MulMonotone(d, 1, e);
  }

  /** Of a factor pair, the smaller one's square is at most the product. */
  lemma SmallerOfPair(d: int, e: int)
    requires d >= 1 && e >= 1
    ensures var f := if d <= e then d else e; f * f <= d * e
  {
    if d < e {
      MulMonotone(d, d, e);
    }
    if e < d {
      MulMonotone(e, e, d);
    }
  }

  /** A small factor makes `n` composite. */
  lemma SmallFactorNotPrime(n: int, i: int)
    requires HasSmallFactor(n, i)
    ensures !IsPrime(n)
  {
    var d :| 2 <= d <= i && d * d <= n && Divides(d, n);
    SmallFactorIsProper(d, n);
  }

  /** A composite `n <= i * i` has a factor no larger than `i` whose square
      does not exceed `n`. */
  lemma CompositeHasSmallFactor(n: int, i: int)
    requires 2 <= n && i >= 0 && n <= i * i && !IsPrime(n)
    ensures HasSmallFactor(n, i)
  {
    var d :| 2 <= d < n && Divides(d, n);
    var e := n / d;
    assert n == d * e;
    CofactorAtLeastTwo(d, e);
    MultipleDivides(e, d);
    assert Divides(e, n) by { assert e * d == n; }
    var f := if d <= e then d else e;
    SmallerOfPair(d, e);
    RootBound(f, i);
    assert 2 <= f <= i && f * f <= n && Divides(f, n);
  }

  /** With every candidate factor up to `i` considered, and `n <= i * i`,
      no small factor means prime. */
  lemma PrimeIffNoSmallFactor(n: int, i: int)
    requires 2 <= n && i >= 0 && n <= i * i
    ensures IsPrime(n) <==> !HasSmallFactor(n, i)
  {
    if HasSmallFactor(n, i) {
      SmallFactorNotPrime(n, i);
    }
    if !IsPrime(n) {
      CompositeHasSmallFactor(n, i);
    }
  }

  /** A number that is itself removed (or 1) adds no new factor: every
      multiple of it is already a multiple of one of its factors. */
  lemma CompositeAddsNothing(n: int, i: int)
    requires i >= 0 && n >= 1 && (i + 1 < 2 || HasSmallFactor(i + 1, i))
    ensures HasSmallFactor(n, i + 1) <==> HasSmallFactor(n, i)
  {
    if HasSmallFactor(n, i + 1) {
      var e :| 2 <= e <= i + 1 && e * e <= n && Divides(e, n);
      if e == i + 1 {
        var p := i + 1;
        var d :| 2 <= d <= i && d * d <= p && Divides(d, p);
        DividesTransitive(d, p, n);
        SquareAtLeast(p);
        assert 2 <= d <= i && d * d <= n && Divides(d, n);
      } else {
        assert 2 <= e <= i && e * e <= n && Divides(e, n);
      }
    }
    if HasSmallFactor(n, i) {
      var e :| 2 <= e <= i && e * e <= n && Divides(e, n);
      assert 2 <= e <= i + 1;
    }
  }

  /** A pass for the prime `p = i + 1` adds exactly the factor `p`. */
  lemma PassAddsFactor(n: int, i: int)
    requires i >= 0
    ensures HasSmallFactor(n, i + 1) <==>
              HasSmallFactor(n, i) || (i + 1 >= 2 && Divides(i + 1, n) && (i + 1) * (i + 1) <= n)
  {
    if HasSmallFactor(n, i + 1) {
      var e :| 2 <= e <= i + 1 && e * e <= n && Divides(e, n);
      if e <= i {
        assert 2 <= e <= i && e * e <= n && Divides(e, n);
      }
    }
    if HasSmallFactor(n, i) {
      var e :| 2 <= e <= i && e * e <= n && Divides(e, n);
      assert 2 <= e <= i + 1;
    }
    if i + 1 >= 2 && Divides(i + 1, n) && (i + 1) * (i + 1) <= n {
      assert 2 <= i + 1 <= i + 1;
    }
  }

  /** A multiple of `p` below `p * (k + 1)` other than `p * k` is below `p * k`. */
  lemma MultipleBelow(p: int, n: int, k: int)
    requires p >= 1 && Divides(p, n) && n != p * k && n < p * (k + 1)
    ensures n < p * k
  {
    var q := n / p;
    assert n == p * q;
    MulMonotone(p, q, k + 1);
    MulMonotone(p, q, k);
  }

  /** Array creation and `sieve[0] = false; for (i = 1; i < max; i++)
      sieve[i] = true;`. */
  method NewSieve(max: nat) returns (sieve: array<bool>)
    requires max >= 1
    ensures fresh(sieve) && sieve.Length == max
    ensures !sieve[0] && forall j :: 1 <= j < max ==> sieve[j]
  {
    sieve := new bool[max](_ => false);
    sieve[0] := false;
    for i := 1 to max
      invariant !sieve[0] && forall j :: 1 <= j < i ==> sieve[j]
    {
      sieve[i] := true;
    }
  }

  /** The inner loop for `p = i + 1`: clears `p * k - 1` for `k = p, p + 1,
      ...` while `p * k <= max`, i.e. every multiple of `p` from `p * p` on. */
  method CrossOut(sieve: array<bool>, p: int)
    requires p >= 1 && sieve.Length < 0x4000_0000
    modifies sieve
    ensures forall j :: 0 <= j < sieve.Length ==>
              sieve[j] == (old(sieve[j]) && !(Divides(p, j + 1) && p * p <= j + 1))
  {
    var k := p;
    while p * k <= sieve.Length
      invariant p <= k
      invariant forall j :: 0 <= j < sieve.Length ==>
                  sieve[j] == (old(sieve[j]) && !(Divides(p, j + 1) && p * p <= j + 1 && j + 1 < p * k))
      decreases sieve.Length - k
    {
      MulAtLeast(k, p);
      assert p * k >= k;
      forall n | n != p * k && Divides(p, n) && n < p * (k + 1)
        ensures n < p * k
      {
        MultipleBelow(p, n, k);
      }
      MultipleDivides(p, k);
      assert p * p <= p * k by {
        assert p * k - p * p == p * (k - p);
      }
      sieve[p * k - 1] := false;
      k := k + 1;
    }
  }

  /** The outer loop `for (i = 0; i * i < max; i++) if (sieve[i]) ...`:
      afterwards `sieve[j]` holds exactly when `j + 1` is prime. */
  method MarkComposites(sieve: array<bool>)
    requires 1 <= sieve.Length < 0x4000_0000
    requires !sieve[0] && forall j :: 1 <= j < sieve.Length ==> sieve[j]
    modifies sieve
    ensures forall j :: 0 <= j < sieve.Length ==> (sieve[j] <==> IsPrime(j + 1))
  {
    var i := 0;
    while i * i < sieve.Length
      invariant 0 <= i
      invariant forall j :: 0 <= j < sieve.Length ==> (sieve[j] <==> j + 1 >= 2 && !HasSmallFactor(j + 1, i))
      decreases sieve.Length - i
    {
      SquareAtLeast(i);
      if sieve[i] {
        CrossOut(sieve, i + 1);
        forall j | 0 <= j < sieve.Length
          ensures sieve[j] <==> j + 1 >= 2 && !HasSmallFactor(j + 1, i + 1)
        {
          PassAddsFactor(j + 1, i);
        }
      } else {
        forall j | 0 <= j < sieve.Length
          ensures sieve[j] <==> j + 1 >= 2 && !HasSmallFactor(j + 1, i + 1)
        {
          CompositeAddsNothing(j + 1, i);
        }
      }
      i := i + 1;
    }
    forall j | 1 <= j < sieve.Length
      ensures sieve[j] <==> IsPrime(j + 1)
    {
      PrimeIffNoSmallFactor(j + 1, i);
    }
  }

  /** The output loop: `i + 1` for each `i` with `sieve[i]`, in increasing
      order. */
  method Listed(sieve: array<bool>) returns (out: seq<int>)
    ensures forall k :: 0 <= k < |out| ==> 1 <= out[k] <= sieve.Length && sieve[out[k] - 1]
    ensures forall j :: 0 <= j < sieve.Length && sieve[j] ==> j + 1 in out
    ensures forall a, b :: 0 <= a < b < |out| ==> out[a] < out[b]
  {
    out := [];
    for i := 0 to sieve.Length
      invariant forall k :: 0 <= k < |out| ==> 1 <= out[k] <= i && sieve[out[k] - 1]
      invariant forall j :: 0 <= j < i && sieve[j] ==> j + 1 in out
      invariant forall a, b :: 0 <= a < b < |out| ==> out[a] < out[b]
    {
      if sieve[i] {
        out := out + [i + 1];
      }
    }
  }

  /** `main` without its printing: the numbers it prints are exactly the
      primes up to `max`, in increasing order. */
  method PrimesUpTo(max: nat) returns (out: seq<int>)
    requires 1 <= max < 0x4000_0000
    ensures forall k :: 0 <= k < |out| ==> 1 <= out[k] <= max && IsPrime(out[k])
    ensures forall n :: 1 <= n <= max && IsPrime(n) ==> n in out
    ensures forall a, b :: 0 <= a < b < |out| ==> out[a] < out[b]
  {
    var sieve := NewSieve(max);
    MarkComposites(sieve);
    out := Listed(sieve);
    forall n | 1 <= n <= max && IsPrime(n)
      ensures n in out
    {
      assert sieve[n - 1];
    }
  }
}
