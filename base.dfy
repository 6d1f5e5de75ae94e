/** Fixed-width integers, the Option type, and two's-complement helpers
    shared by the class-file reader, the interpreter and the example programs. */
module Base {

  datatype Option<+T> = None | Some(value: T)

  type byte = x: int | 0 <= x < 0x100
  type u16 = x: int | 0 <= x < 0x1_0000
  type u32 = x: int | 0 <= x < 0x1_0000_0000
  type u64 = x: int | 0 <= x < 0x1_0000_0000_0000_0000
  type i8 = x: int | -0x80 <= x < 0x80
  type i16 = x: int | -0x8000 <= x < 0x8000
  type i32 = x: int | -0x8000_0000 <= x < 0x8000_0000
  type i64 = x: int | -0x8000_0000_0000_0000 <= x < 0x8000_0000_0000_0000

  predicate IsI32(x: int) { -0x8000_0000 <= x < 0x8000_0000 }

  /** The 32-bit two's-complement value congruent to x (Java int arithmetic,
      Rust `i32` wrapping arithmetic, `u32 as i32`). */
  function Wrap32(x: int): (r: i32)
    ensures (r - x) % 0x1_0000_0000 == 0
    ensures IsI32(x) ==> r == x
  {
    if IsI32(x) then x
    else var m := x % 0x1_0000_0000;
         if m < 0x8000_0000 then m else m - 0x1_0000_0000
  }

  /** The 8-bit two's-complement value congruent to x (Rust `i8` wrapping). */
  function Wrap8(x: int): (r: i8)
    ensures (r - x) % 0x100 == 0
    ensures -0x80 <= x < 0x80 ==> r == x
  {
    var m := x % 0x100;
    if m < 0x80 then m else m - 0x100
  }

  /** The 16-bit two's-complement value congruent to x (Rust `i16` wrapping). */
  function Wrap16(x: int): (r: i16)
    ensures (r - x) % 0x1_0000 == 0
    ensures -0x8000 <= x < 0x8000 ==> r == x
  {
    var m := x % 0x1_0000;
    if m < 0x8000 then m else m - 0x1_0000
  }

  /** The 64-bit two's-complement value congruent to x (Rust `i64` wrapping). */
  function Wrap64(x: int): (r: i64)
    ensures (r - x) % 0x1_0000_0000_0000_0000 == 0
    ensures -0x8000_0000_0000_0000 <= x < 0x8000_0000_0000_0000 ==> r == x
  {
    var m := x % 0x1_0000_0000_0000_0000;
    if m < 0x8000_0000_0000_0000 then m else m - 0x1_0000_0000_0000_0000
  }

  /** Reinterprets a byte as a signed 8-bit value (Rust `u8 as i8`). */
  function SignedByte(b: byte): (r: i8)
    ensures (r - b) % 0x100 == 0
    ensures b < 0x80 <==> r >= 0
  {
    if b < 0x80 then b else b - 0x100
  }

  /** Division that truncates toward zero, as Java's `/` does. */
  function TruncDiv(a: int, b: int): (q: int)
    requires b != 0
    ensures a >= 0 && b > 0 ==> q == a / b
  {
    if a >= 0 then (if b > 0 then a / b else -(a / -b))
    else (if b > 0 then -(-a / b) else -a / -b)
  }

  /** Remainder whose sign follows the dividend, as Java's `%` does. */
  function TruncRem(a: int, b: int): (r: int)
    requires b != 0
    ensures a == TruncDiv(a, b) * b + r
    ensures a >= 0 ==> 0 <= r < (if b > 0 then b else -b)
    ensures a < 0 ==> -(if b > 0 then b else -b) < r <= 0
    ensures a >= 0 && b > 0 ==> r == a % b
  {
    var m := if b > 0 then b else -b;
    if a >= 0 then a % m else -((-a) % m)
  }

  function Pow2(k: nat): (r: nat)
    ensures r >= 1
  {
    if k == 0 then 1 else 2 * Pow2(k - 1)
  }

  lemma Pow2Values()
    ensures Pow2(5) == 32 && Pow2(8) == 256 && Pow2(15) == 32768 && Pow2(16) == 65536
  {
    assert Pow2(4) == 16;
    assert Pow2(8) == 256;
    assert Pow2(12) == 4096;
  }

  lemma {:induction false} Pow2Monotone(j: nat, k: nat)
    requires j <= k
    ensures Pow2(j) <= Pow2(k)
  {
    if j < k { Pow2Monotone(j, k - 1); }
  }

  function Pow(b: int, e: nat): int
  {
    if e == 0 then 1 else b * Pow(b, e - 1)
  }

  /** Bitwise AND of two non-negative integers (Rust's `&` on unsigned values),
      defined bit by bit from the least significant end. */
  function BitAnd(a: nat, b: nat): (r: nat)
    ensures r <= a && r <= b
  {
    if a == 0 || b == 0 then 0 else 2 * BitAnd(a / 2, b / 2) + (a % 2) * (b % 2)
  }

  /** Bit k of a. */
  predicate HasBit(a: nat, k: nat) {
    (a / Pow2(k)) % 2 == 1
  }

  lemma MulAtLeast(m: int, d: int)
    requires m > 0 && d >= 1
    ensures m * d >= m
  {
    assert m * d == m + m * (d - 1);
  }

  /** Division by a positive divisor is determined by quotient and remainder. */
  lemma DivUnique(x: int, m: int, q: int, s: int)
    requires m > 0 && x == m * q + s && 0 <= s < m
    ensures x / m == q && x % m == s
  {
    var q', s' := x / m, x % m;
    assert x == m * q' + s';
    assert m * (q - q') == s' - s by {
      assert m * q - m * q' == m * (q - q');
    }
    if q > q' {
      MulAtLeast(m, q - q');
    } else if q < q' {
      MulAtLeast(m, q' - q);
    }
  }

  lemma DivDiv2(a: nat, k: nat)
    ensures (a / 2) / Pow2(k) == a / Pow2(k + 1)
  {
    var m := Pow2(k);
    assert Pow2(k + 1) == 2 * m;
    var q := a / (2 * m);
    var r := a % (2 * m);
    assert a == 2 * m * q + r && 0 <= r < 2 * m;
    assert a == 2 * (m * q + r / 2) + r % 2;
    DivUnique(a, 2, m * q + r / 2, r % 2);
    DivUnique(a / 2, m, q, r / 2);
  }

  /** ANDing with the single-bit mask 2^k is non-zero exactly when bit k is set. */
  lemma {:induction false} BitAndSingleBit(a: nat, k: nat)
    ensures BitAnd(a, Pow2(k)) != 0 <==> HasBit(a, k)
  {
    if k == 0 {
      assert BitAnd(a, 1) == a % 2;
    } else if a == 0 {
      assert 0 / Pow2(k) == 0;
    } else {
      assert Pow2(k) / 2 == Pow2(k - 1) && Pow2(k) % 2 == 0;
      assert BitAnd(a, Pow2(k)) == 2 * BitAnd(a / 2, Pow2(k - 1));
      BitAndSingleBit(a / 2, k - 1);
      DivDiv2(a, k - 1);
    }
  }
}
