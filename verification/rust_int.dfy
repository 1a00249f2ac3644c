/** Rust's `/` and `%` on signed integers. Rust truncates the quotient toward
    zero and gives the remainder the sign of the dividend; Dafny's own `/` and
    `%` are Euclidean (the remainder is never negative), so both operators are
    defined here explicitly and characterised by their contracts. */
module RustInt {

  function Abs(x: int): nat
  {
    if x < 0 then -x else x
  }

  /** `a / b` for a nonzero divisor. The product `q * b` lies between zero and
      `a` (the quotient is rounded toward zero) and misses `a` by less than one
      divisor. */
  function TruncDiv(a: int, b: int): (q: int)
    requires b != 0
    ensures Abs(a - q * b) < Abs(b)
    ensures a >= 0 ==> 0 <= q * b <= a
    ensures a < 0 ==> a <= q * b <= 0
  {
    var m := Abs(a) / Abs(b);
    MulBelow(Abs(a), Abs(b));
    if (a >= 0) == (b > 0) then m else -m
  }

  /** `a % b` for a nonzero divisor: the remainder that completes Rust's
      quotient, smaller than the divisor and signed like the dividend. */
  function TruncRem(a: int, b: int): (r: int)
    requires b != 0
    ensures a == TruncDiv(a, b) * b + r
    ensures Abs(r) < Abs(b)
    ensures a >= 0 ==> r >= 0
    ensures a < 0 ==> r <= 0
  {
    if a >= 0 then a % Abs(b) else -((-a) % Abs(b))
  }

  /** Euclidean division of naturals: `(x / y) * y` is within `y` of `x`. */
  lemma MulBelow(x: nat, y: nat)
    requires y > 0
    ensures 0 <= (x / y) * y <= x < (x / y) * y + y
  {
  }

  /** A nonzero multiple of `b` is at least as large as `b`. */
  lemma MulAtLeast(k: int, b: int)
    requires k != 0
    ensures Abs(k * b) >= Abs(b)
  {
    var m: int, n: int := Abs(k), Abs(b);
    if k < 0 && b < 0 {
      assert k * b == m * n;
    } else if k < 0 {
      assert k * b == -(m * n);
    } else if b < 0 {
      assert k * b == -(m * n);
    } else {
      assert k * b == m * n;
    }
    assert m * n == (m - 1) * n + n;
  }

  /** Rust's quotient and remainder are the only pair that rebuilds the
      dividend with a remainder smaller than the divisor and signed like the
      dividend. */
  lemma TruncDivRemUnique(a: int, b: int, q: int, r: int)
    requires b != 0
    requires a == q * b + r
    requires Abs(r) < Abs(b)
    requires a >= 0 ==> r >= 0
    requires a < 0 ==> r <= 0
    ensures q == TruncDiv(a, b)
    ensures r == TruncRem(a, b)
  {
    var q0, r0 := TruncDiv(a, b), TruncRem(a, b);
    var d := q - q0;
    assert d * b == q * b - q0 * b by { MulSub(q, q0, b); }
    assert d * b == r0 - r;
    if d != 0 {
      MulAtLeast(d, b);
      assert false;
    }
  }

  /** Multiplication distributes over a difference. */
  lemma MulSub(x: int, y: int, b: int)
    ensures (x - y) * b == x * b - y * b
  {
  }

  /** On a negative dividend Rust and Dafny disagree: `-7 / 2` is `-3` with
      remainder `-1` in Rust, `-4` with remainder `1` in Dafny. */
  lemma TruncatesTowardZero()
    ensures TruncDiv(-7, 2) == -3 && TruncRem(-7, 2) == -1
    ensures -7 / 2 == -4 && -7 % 2 == 1
    ensures TruncDiv(7, -2) == -3 && TruncRem(7, -2) == 1
  {
    TruncDivRemUnique(-7, 2, -3, -1);
    TruncDivRemUnique(7, -2, -3, 1);
  }
}
