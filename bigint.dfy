/** The linked-list bignum of the BigInt example program: base 10^9 limbs,
    least significant first, with Java `int` arithmetic written out. */
module BigIntegers {
  import opened Base

  const BASE: int := 1_000_000_000

  /** The number a limb sequence denotes. */
  function Value(s: seq<int>): int
  {
    if s == [] then 0 else s[0] + BASE * Value(s[1..])
  }

  predicate InRange(s: seq<int>) {
    forall i :: 0 <= i < |s| ==> 0 <= s[i] < BASE
  }

  function Head(s: seq<int>): int { if s == [] then 0 else s[0] }
  function Tail(s: seq<int>): seq<int> { if s == [] then [] else s[1..] }

  /** The limb an iteration of `add`'s loop stores: `cl.n` starts at 0 and
      gains the carry and the current limbs of both operands (each `+=` is a
      Java `int` addition), then is split by `/` and `%` by 10^9. */
  function LimbSum(a: seq<int>, b: seq<int>, carry: int): i32
  {
    Wrap32(Wrap32(Wrap32(0 + carry) + Head(a)) + Head(b))
  }

  function Measure(a: seq<int>, b: seq<int>): nat { |a| + |b| }

  /** The limbs `add` produces from operands `a` and `b` and an incoming
      carry: one limb per iteration, continuing while either operand has
      limbs left or the carry is positive. */
  function AddLimbs(a: seq<int>, b: seq<int>, carry: int): (r: seq<int>)
    requires -0x8000_0000 <= carry < 0x8000_0000
    ensures |r| >= 1
    decreases Measure(a, b), if carry > 0 then carry else 0
  {
    var s := LimbSum(a, b, carry);
    var limb := TruncRem(s, BASE);
    var c := TruncDiv(s, BASE);
    var a', b' := Tail(a), Tail(b);
    if a' != [] || b' != [] || c > 0 then
      assert Measure(a', b') < Measure(a, b) || (a == [] && b == [] && a' == [] && b' == [] && c < carry) by {
        if a == [] && b == [] {
          assert s == carry;
        }
      }
      [limb] + AddLimbs(a', b', c)
    else
      [limb]
  }

  /** For limbs below 10^9 and a carry of 0 or 1, no `+=` overflows, the new
      carry is 0 or 1 again and the stored limb is below 10^9. */
  lemma LimbSumInRange(a: seq<int>, b: seq<int>, carry: int)
    requires InRange(a) && InRange(b) && 0 <= carry <= 1
    ensures LimbSum(a, b, carry) == carry + Head(a) + Head(b)
    ensures var s := LimbSum(a, b, carry);
            s == TruncDiv(s, BASE) * BASE + TruncRem(s, BASE) &&
            0 <= TruncDiv(s, BASE) <= 1 && 0 <= TruncRem(s, BASE) < BASE
  {
    var s := carry + Head(a) + Head(b);
    assert 0 <= s <= 2 * BASE - 1;
    if s >= BASE {
      DivUnique(s, BASE, 1, s - BASE);
    } else {
      DivUnique(s, BASE, 0, s);
    }
  }

  lemma TailInRange(a: seq<int>)
    requires InRange(a)
    ensures InRange(Tail(a)) && Value(a) == Head(a) + BASE * Value(Tail(a))
  {
  }

  /** `add` is addition: its limbs are below 10^9 and denote the sum. */
  lemma {:induction false} AddLimbsValue(a: seq<int>, b: seq<int>, carry: int)
    requires InRange(a) && InRange(b) && 0 <= carry <= 1
    ensures InRange(AddLimbs(a, b, carry))
    ensures Value(AddLimbs(a, b, carry)) == Value(a) + Value(b) + carry
    decreases Measure(a, b), carry
  {
    var s := LimbSum(a, b, carry);
    LimbSumInRange(a, b, carry);
    TailInRange(a);
    TailInRange(b);
    var limb := TruncRem(s, BASE);
    var c := TruncDiv(s, BASE);
    var a', b' := Tail(a), Tail(b);
    var r := AddLimbs(a, b, carry);
    if a' != [] || b' != [] || c > 0 {
      AddLimbsValue(a', b', c);
      assert r == [limb] + AddLimbs(a', b', c);
      assert r[1..] == AddLimbs(a', b', c);
      assert Value(a) + Value(b) + carry == limb + BASE * (Value(a') + Value(b') + c) by {
        assert s == carry + Head(a) + Head(b) == c * BASE + limb;
      }
    } else {
      assert r == [limb];
      assert Value([limb]) == limb + BASE * Value([]);
    }
  }

  function Max(x: int, y: int): int { if x >= y then x else y }

  /** A number of digits below 10^9 is below 10^(9 * length). */
  lemma {:induction false} ValueBelow(s: seq<int>)
    requires InRange(s)
    ensures 0 <= Value(s) < Pow(BASE, |s|)
    decreases |s|
  {
    if s != [] {
      ValueBelow(s[1..]);
      var v := Value(s[1..]);
      assert Value(s) <= BASE - 1 + BASE * (Pow(BASE, |s| - 1) - 1) by {
        assert BASE * v <= BASE * (Pow(BASE, |s| - 1) - 1);
      }
    }
  }

  /** Comparing `limb + BASE * x` with `BASE * p` is comparing `x` with `p`. */
  lemma ShiftCompare(limb: int, x: int, p: int)
    requires 0 <= limb < BASE
    ensures limb + BASE * x >= BASE * p <==> x >= p
  {
    if x >= p {
      assert BASE * x - BASE * p == BASE * (x - p);
    } else {
      assert BASE * p - BASE * x == BASE * (p - x);
    }
  }

  /** One limb of a sum: whether the total reaches `BASE^m` is whether the
      rest, above the stored limb, reaches `BASE^(m - 1)`. */
  lemma LengthStep(a: seq<int>, b: seq<int>, carry: int, m: nat)
    requires InRange(a) && InRange(b) && 0 <= carry <= 1 && m >= 1
    ensures var s := LimbSum(a, b, carry);
            var rest := Value(Tail(a)) + Value(Tail(b)) + TruncDiv(s, BASE);
            (Value(a) + Value(b) + carry >= Pow(BASE, m) <==> rest >= Pow(BASE, m - 1)) &&
            0 <= TruncDiv(s, BASE) <= 1 && 0 <= rest
  {
    var s := LimbSum(a, b, carry);
    LimbSumInRange(a, b, carry);
    TailInRange(a);
    TailInRange(b);
    ValueBelow(Tail(a));
    ValueBelow(Tail(b));
    var limb := TruncRem(s, BASE);
    var rest := Value(Tail(a)) + Value(Tail(b)) + TruncDiv(s, BASE);
    assert Value(a) + Value(b) + carry == limb + BASE * rest by {
      assert s == carry + Head(a) + Head(b) == TruncDiv(s, BASE) * BASE + limb;
    }
    assert Pow(BASE, m) == BASE * Pow(BASE, m - 1);
    ShiftCompare(limb, rest, Pow(BASE, m - 1));
  }

  /** The length `AddLimbsLength` states. */
  function SumLength(a: seq<int>, b: seq<int>, carry: int): nat
  {
    var m := Max(Max(|a|, |b|), 1);
    m + (if Value(a) + Value(b) + carry >= Pow(BASE, m) then 1 else 0)
  }

  /** An iteration that goes on stores one limb before the rest. */
  lemma AddLimbsCons(a: seq<int>, b: seq<int>, carry: int)
    requires -0x8000_0000 <= carry < 0x8000_0000
    requires var c := TruncDiv(LimbSum(a, b, carry), BASE);
             Tail(a) != [] || Tail(b) != [] || c > 0
    ensures var s := LimbSum(a, b, carry);
            AddLimbs(a, b, carry) == [TruncRem(s, BASE)] + AddLimbs(Tail(a), Tail(b), TruncDiv(s, BASE))
  {
  }

  /** The stated length grows by one limb per iteration that goes on. */
  lemma SumLengthStep(a: seq<int>, b: seq<int>, carry: int)
    requires InRange(a) && InRange(b) && 0 <= carry <= 1
    requires var c := TruncDiv(LimbSum(a, b, carry), BASE);
             Tail(a) != [] || Tail(b) != [] || c > 0
    ensures SumLength(a, b, carry) == 1 + SumLength(Tail(a), Tail(b), TruncDiv(LimbSum(a, b, carry), BASE))
  {
    var c := TruncDiv(LimbSum(a, b, carry), BASE);
    var m := Max(Max(|a|, |b|), 1);
    LengthStep(a, b, carry, m);
    if Tail(a) != [] || Tail(b) != [] {
      assert Max(Max(|Tail(a)|, |Tail(b)|), 1) == m - 1;
    } else {
      assert m == 1;
      assert Value(Tail(a)) + Value(Tail(b)) + c == 1;
    }
  }

  /** An iteration that stops yields the last limb. */
  lemma LengthStops(a: seq<int>, b: seq<int>, carry: int)
    requires InRange(a) && InRange(b) && 0 <= carry <= 1
    requires var c := TruncDiv(LimbSum(a, b, carry), BASE);
             !(Tail(a) != [] || Tail(b) != [] || c > 0)
    ensures |AddLimbs(a, b, carry)| == SumLength(a, b, carry)
  {
    LengthStep(a, b, carry, 1);
    assert Max(Max(|a|, |b|), 1) == 1;
  }

  /** The length of `add`'s result: the longer operand's length (at least
      one limb), plus one exactly when the sum needs another limb. */
  lemma {:induction false} AddLimbsLength(a: seq<int>, b: seq<int>, carry: int)
    requires InRange(a) && InRange(b) && 0 <= carry <= 1
    ensures |AddLimbs(a, b, carry)| == SumLength(a, b, carry)
    decreases Measure(a, b), carry
  {
    var c := TruncDiv(LimbSum(a, b, carry), BASE);
    LimbSumInRange(a, b, carry);
    TailInRange(a);
    TailInRange(b);
    if Tail(a) != [] || Tail(b) != [] || c > 0 {
      AddLimbsLength(Tail(a), Tail(b), c);
      AddLimbsCons(a, b, carry);
      SumLengthStep(a, b, carry);
    } else {
      LengthStops(a, b, carry);
    }
  }

  /** What the iterations of `add`'s loop use up: the limbs still to be
      read, and a positive carry. */
  function Rank(a: seq<int>, b: seq<int>, carry: int): nat
  {
    3 * (|a| + |b|) + (if carry > 0 then carry else 0)
  }

  /** The carry out of a Java `int` divided by 10^9 is small. */
  lemma CarryRange(s: i32)
    ensures -3 <= TruncDiv(s, BASE) <= 3
  {
    if s < 0 {
      assert -(s as int) / BASE <= 3;
    } else {
      assert s / BASE <= 3;
    }
  }

  /** The rank of `add`'s loop falls with every iteration that goes on. */
  lemma RankFalls(a: seq<int>, b: seq<int>, carry: int)
    requires -0x8000_0000 <= carry < 0x8000_0000
    ensures var c := TruncDiv(LimbSum(a, b, carry), BASE);
            Tail(a) != [] || Tail(b) != [] || c > 0 ==> Rank(Tail(a), Tail(b), c) < Rank(a, b, carry)
  {
    var s := LimbSum(a, b, carry);
    CarryRange(s);
    if a == [] && b == [] {
      assert s == carry;
    }
  }

  /** One iteration of `add`'s loop: the stored limb, then either the rest
      of the limbs or the end. */
  lemma AddLimbsStep(a: seq<int>, b: seq<int>, carry: int, prefix: seq<int>, target: seq<int>)
    requires -0x8000_0000 <= carry < 0x8000_0000
    requires prefix + AddLimbs(a, b, carry) == target
    ensures var s := LimbSum(a, b, carry);
            var c := TruncDiv(s, BASE);
            -0x8000_0000 <= c < 0x8000_0000 &&
            (Tail(a) != [] || Tail(b) != [] || c > 0 ==> Rank(Tail(a), Tail(b), c) < Rank(a, b, carry)) &&
            (Tail(a) != [] || Tail(b) != [] || c > 0 ==>
               (prefix + [TruncRem(s, BASE)]) + AddLimbs(Tail(a), Tail(b), c) == target) &&
            (!(Tail(a) != [] || Tail(b) != [] || c > 0) ==> prefix + [TruncRem(s, BASE)] == target)
  {
    var s := LimbSum(a, b, carry);
    var c := TruncDiv(s, BASE);
    var limb := TruncRem(s, BASE);
    CarryRange(s);
    RankFalls(a, b, carry);
    if Tail(a) != [] || Tail(b) != [] || c > 0 {
      var rest := AddLimbs(Tail(a), Tail(b), c);
      assert AddLimbs(a, b, carry) == [limb] + rest;
      assert prefix + ([limb] + rest) == (prefix + [limb]) + rest;
    } else {
      assert AddLimbs(a, b, carry) == [limb];
    }
  }

  /** A number as its sign and its limb list, least significant limb first
      (`BigInteger` and its chain of `BigIntegerList` nodes). */
  datatype BigInteger = BigInteger(sign: bool, list: seq<i32>)

  /** `new BigInteger(n)`: the sign of `n` and a single limb holding `n`. */
  function FromInt(n: i32): (r: BigInteger)
    ensures r.sign <==> n >= 0
    ensures |r.list| == 1 && Value(r.list) == n
  {
    BigInteger(n >= 0, [n])
  }

  /** The first half of an iteration of `add`'s loop: `cl.n` gains the
      carry and the current limb of each list that has one left, and the
      walks move on. */
  method Accumulate(a: seq<i32>, b: seq<i32>, ia: nat, ib: nat, carry: int)
    returns (n: i32, ia': nat, ib': nat)
    requires ia <= |a| && ib <= |b| && -0x8000_0000 <= carry < 0x8000_0000
    ensures n == LimbSum(a[ia..], b[ib..], carry)
    ensures ia' <= |a| && ib' <= |b|
    ensures a[ia'..] == Tail(a[ia..]) && b[ib'..] == Tail(b[ib..])
  {
    n, ia', ib' := Wrap32(0 + carry), ia, ib;
    if ia < |a| {
      n := Wrap32(n + a[ia]);
      ia' := ia + 1;
    }
    if ib < |b| {
      n := Wrap32(n + b[ib]);
      ib' := ib + 1;
    }
  }

  /** One iteration of `add`'s loop on the remaining limbs `a[ia..]` and
      `b[ib..]`: the new limb, the new carry, the advanced walks and whether
      the loop goes on. */
  method Iterate(a: seq<i32>, b: seq<i32>, ia: nat, ib: nat, carry: int,
                 ghost out: seq<int>, ghost target: seq<int>)
    returns (limb: i32, carry': i32, ia': nat, ib': nat, more: bool)
    requires ia <= |a| && ib <= |b| && -0x8000_0000 <= carry < 0x8000_0000
    requires out + AddLimbs(a[ia..], b[ib..], carry) == target
    ensures ia' <= |a| && ib' <= |b|
    ensures more <==> ia' < |a| || ib' < |b| || carry' > 0
    ensures more ==> Rank(a[ia'..], b[ib'..], carry') < Rank(a[ia..], b[ib..], carry)
    ensures more ==> (out + [limb]) + AddLimbs(a[ia'..], b[ib'..], carry') == target
    ensures !more ==> out + [limb] == target
  {
    AddLimbsStep(a[ia..], b[ib..], carry, out, target);
    var n;
    n, ia', ib' := Accumulate(a, b, ia, ib, carry);
    carry' := TruncDiv(n, BASE);
    limb := TruncRem(n, BASE);
    more := ia' < |a| || ib' < |b| || carry' > 0;
  }

  /** `add`: walks both limb lists from the least significant end, storing
      one limb per iteration, while either list has limbs left or the carry
      is positive. The result is non-negative whatever the operands' signs. */
  method Add(x: BigInteger, val: BigInteger) returns (c: BigInteger)
    ensures c.sign && c.list == AddLimbs(x.list, val.list, 0)
  {
    var carry: int := 0;
    var out: seq<i32> := [];
    var ia, ib := 0, 0;
    ghost var target := AddLimbs(x.list, val.list, 0);
    while true
      invariant 0 <= ia <= |x.list| && 0 <= ib <= |val.list|
      invariant -0x8000_0000 <= carry < 0x8000_0000
      invariant out + AddLimbs(x.list[ia..], val.list[ib..], carry) == target
      decreases Rank(x.list[ia..], val.list[ib..], carry)
    {
      var limb, more;
      limb, carry, ia, ib, more := Iterate(x.list, val.list, ia, ib, carry, out, target);
      out := out + [limb];
      if !more {
        break;
      }
    }
    c := BigInteger(true, out);
  }

  /** The limbs `mul(val, n)` yields: zero, then `n` additions of `val`. */
  function Repeat(v: seq<int>, n: int): seq<int>
    decreases n
  {
    if n <= 0 then [0] else AddLimbs(Repeat(v, n - 1), v, 0)
  }

  /** `mul(val, n)`: starts from `new BigInteger(0)` and adds `val` `n`
      times. The receiver plays no part, so it is not a parameter. */
  method Mul(val: BigInteger, n: i32) returns (ret: BigInteger)
    ensures ret.sign && ret.list == Repeat(val.list, n)
  {
    ret := FromInt(0);
    var i: int := 0;
    while i < n
      invariant i <= n || i == 0
      invariant ret.sign && ret.list == Repeat(val.list, i)
      decreases n - i
    {
      ret := Add(ret, val);
      RepeatNext(val.list, i, ret.list);
      i := i + 1;
    }
  }

  lemma RepeatNext(v: seq<int>, i: int, r: seq<int>)
    requires i >= 0 && r == AddLimbs(Repeat(v, i), v, 0)
    ensures r == Repeat(v, i + 1)
  {
  }

  lemma MulStep(n: int, x: int)
    requires n > 0
    ensures (if n - 1 > 0 then n - 1 else 0) * x + x == n * x
  {
  }

  /** Multiplication by repeated addition: for limbs below 10^9 the result
      denotes `n` times the value (zero for `n <= 0`), with limbs below 10^9. */
  lemma {:induction false} RepeatValue(v: seq<int>, n: int)
    requires InRange(v)
    ensures InRange(Repeat(v, n))
    ensures Value(Repeat(v, n)) == (if n > 0 then n else 0) * Value(v)
    decreases n
  {
    if n > 0 {
      var prev := Repeat(v, n - 1);
      RepeatValue(v, n - 1);
      AddLimbsValue(prev, v, 0);
      assert Repeat(v, n) == AddLimbs(prev, v, 0);
      MulStep(n, Value(v));
    } else {
      assert Value([0]) == 0 + BASE * Value([]);
    }
  }

  function Factorial(k: nat): nat
  {
    if k == 0 then 1 else k * Factorial(k - 1)
  }

  /** The limbs of `n` in `main` after the iterations `i = 1 .. k` of
      `n = n.mul(n, i)`, starting from `new BigInteger(1)`. */
  function FactorialLimbs(k: nat): seq<int>
  {
    if k == 0 then [1] else Repeat(FactorialLimbs(k - 1), k)
  }

  lemma FactorialStep(prev: seq<int>, k: nat, f: nat)
    requires k >= 1 && InRange(prev) && Value(prev) == f
    ensures InRange(Repeat(prev, k)) && Value(Repeat(prev, k)) == k * f
  {
    RepeatValue(prev, k);
  }

  /** `main` prints `k!` on line `k`. */
  lemma {:induction false} FactorialLimbsValue(k: nat)
    ensures InRange(FactorialLimbs(k)) && Value(FactorialLimbs(k)) == Factorial(k)
  {
    if k == 0 {
      assert Value([1]) == 1 + BASE * Value([]);
    } else {
      FactorialLimbsValue(k - 1);
      FactorialStep(FactorialLimbs(k - 1), k, Factorial(k - 1));
    }
  }

  /** The character of a decimal digit. */
  function DigitChar(d: nat): char
    requires d < 10
  {
    (48 + d) as char
  }

  /** The decimal digits of `n`, without leading zeros. */
  function DigitsOf(n: nat): string
    decreases n
  {
    if n < 10 then [DigitChar(n)] else DigitsOf(n / 10) + [DigitChar(n % 10)]
  }

  /** Java's string conversion of an `int`. */
  function IntString(n: int): string
  {
    if n < 0 then "-" + DigitsOf(-n) else DigitsOf(n)
  }

  predicate IsDigit(ch: char) { '0' <= ch <= '9' }

  /** The number a string of decimal digits denotes. */
  function ParseDigits(s: string): int
  {
    if s == [] then 0 else 10 * ParseDigits(s[..|s| - 1]) + (s[|s| - 1] as int - 48)
  }

  /** Decimal rendering is undone by reading the digits back; it uses digits
      only and has no leading zero. */
  lemma {:induction false} DigitsRoundTrip(n: nat)
    ensures |DigitsOf(n)| >= 1 && (DigitsOf(n)[0] != '0' || n == 0)
    ensures forall i :: 0 <= i < |DigitsOf(n)| ==> IsDigit(DigitsOf(n)[i])
    ensures ParseDigits(DigitsOf(n)) == n
    decreases n
  {
    if n >= 10 {
      DigitsRoundTrip(n / 10);
      var s := DigitsOf(n);
      assert s[..|s| - 1] == DigitsOf(n / 10);
      assert n == 10 * (n / 10) + n % 10;
    }
  }

  /** `BigIntegerList.asString`: the rest of the list first, then this
      node's limb and a space, so the most significant limb comes first. */
  function ListString(l: seq<int>): string
  {
    if l == [] then "" else ListString(l[1..]) + (IntString(l[0]) + " ")
  }

  /** `BigInteger.asString`: a minus sign for a negative sign, then the list. */
  function AsString(x: BigInteger): string
  {
    (if x.sign then "" else "-") + ListString(x.list)
  }

  /** The most significant limb is printed first: appending a limb at the
      most significant end prepends its rendering. */
  lemma {:induction false} ListStringMostSignificantFirst(l: seq<int>, top: int)
    ensures ListString(l + [top]) == IntString(top) + " " + ListString(l)
    decreases |l|
  {
    if l != [] {
      assert (l + [top])[1..] == l[1..] + [top];
      ListStringMostSignificantFirst(l[1..], top);
    } else {
      assert ([] + [top])[1..] == [];
    }
  }
}
