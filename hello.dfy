/** `fibo` of the Hello example program: the doubly recursive Fibonacci
    function on Java `int`s. */
module Fibonacci {
  import opened Base

  /** The Fibonacci numbers with `fibo`'s base case, on unbounded integers. */
  function Fib(n: int): (r: nat)
    ensures r >= 1
    decreases n
  {
    if n <= 2 then 1 else Fib(n - 1) + Fib(n - 2)
  }

  /** `fibo`: 1 for `n <= 2`, otherwise the Java `int` sum of the two
      previous values. The argument falls by at least one per call and
      every call with `n <= 2` returns at once, so the recursion ends. */
  function Fibo(n: i32): i32
    decreases n
  {
    if n <= 2 then 1 else Wrap32(Fibo(n - 1) + Fibo(n - 2))
  }

  /** The Fibonacci numbers do not decrease. */
  lemma {:induction false} FibMonotone(m: int, n: int)
    requires m <= n
    ensures Fib(m) <= Fib(n)
    decreases n - m
  {
    if m < n {
      FibMonotone(m, n - 1);
    }
  }

  /** Some values of the sequence, computed ten or so steps at a time. */
  lemma FibValues()
    ensures Fib(20) == 6765 && Fib(45) == 1134903170
    ensures Fib(46) == 1836311903 && Fib(47) == 2971215073
  {
    assert Fib(8) == 21 && Fib(9) == 34;
    assert Fib(15) == 610 && Fib(16) == 987;
    assert Fib(19) == 4181 && Fib(20) == 6765;
    assert Fib(25) == 75025 && Fib(26) == 121393;
    assert Fib(31) == 1346269 && Fib(32) == 2178309;
    assert Fib(37) == 24157817 && Fib(38) == 39088169;
    assert Fib(43) == 433494437 && Fib(44) == 701408733;
  }

  /** No Fibonacci number up to the 46th reaches 2^31. */
  lemma FibBelow(n: int)
    requires n <= 46
    ensures Fib(n) < 0x8000_0000
  {
    FibMonotone(n, 46);
    FibValues();
  }

  /** Up to 46 no addition of `fibo` overflows: it computes the Fibonacci
      numbers. */
  lemma {:induction false} FiboIsFib(n: i32)
    requires n <= 46
    ensures Fibo(n) == Fib(n)
    decreases n
  {
    if n > 2 {
      FiboIsFib(n - 1);
      FiboIsFib(n - 2);
      FibBelow(n);
    }
  }

  /** `fibo(n) == 1` for `n <= 2`, `fibo(n) == fibo(n - 1) + fibo(n - 2)`
      without wrap-around and `fibo(n) >= 1` for every `n <= 46`. */
  lemma FiboRecurrence(n: i32)
    requires n <= 46
    ensures n <= 2 ==> Fibo(n) == 1
    ensures n > 2 ==> Fibo(n) == Fibo(n - 1) + Fibo(n - 2)
    ensures Fibo(n) >= 1
  {
    FiboIsFib(n);
    if n > 2 {
      FiboIsFib(n - 1);
      FiboIsFib(n - 2);
    }
  }

  /** The values `main` prints for `i = 1 .. 20` fit in an `int`; the last
      one is 6765. */
  lemma MainValues(i: i32)
    requires 1 <= i <= 20
    ensures Fibo(i) == Fib(i) && 1 <= Fibo(i) <= 6765
  {
    FiboIsFib(i);
    FibMonotone(i, 20);
    FibValues();
  }

  /** One step of `fibo` once the previous values are exact. */
  lemma FiboStep(n: i32)
    requires 3 <= n <= 47
    ensures Fibo(n) == Wrap32(Fib(n - 1) + Fib(n - 2))
  {
    FiboIsFib(n - 1);
    FiboIsFib(n - 2);
  }

  /** A sum between 2^31 and 2^32 wraps to itself minus 2^32. */
  lemma WrapHigh(x: int)
    requires 0x8000_0000 <= x < 0x1_0000_0000
    ensures Wrap32(x) == x - 0x1_0000_0000
  {
  }

  /** The 47th Fibonacci number is the first at or above 2^31. */
  lemma FibTop(n: int)
    requires n == 47
    ensures Fib(n) == Fib(n - 1) + Fib(n - 2) == 2971215073
  {
    FibValues();
  }

  /** From 47 on the sum no longer fits: `fibo(47)` wraps to a negative
      number. */
  lemma FiboWraps(n: i32)
    requires n == 47
    ensures Fibo(n) == Fib(n) - 0x1_0000_0000 && Fibo(n) < 0
  {
    FiboStep(n);
    FibTop(n);
    WrapHigh(Fib(n - 1) + Fib(n - 2));
  }
}
