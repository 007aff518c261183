/** Facts about Euclidean `%` on integers with a positive modulus, used to
    reason about ring-buffer cursors.  For a positive modulus Dafny's `%`
    agrees with the floor modulo of Python and numpy. */
module Modular {

  /** Euclidean division is unique: a quotient/remainder pair with the
      remainder in range is the one `/` and `%` produce. */
  lemma ModUnique(x: int, n: int, q: int, r: int)
    requires 0 < n && 0 <= r < n && x == n * q + r
    ensures x % n == r && x / n == q
  {
    var q0, r0 := x / n, x % n;
    assert x == n * q0 + r0;
    assert n * (q - q0) == r0 - r by { MulSub(n, q, q0); }
    if q0 < q {
      MulAtLeast(n, q - q0);
    } else if q0 > q {
      MulAtLeast(n, q0 - q);
      MulSub(n, q0, q);
    }
  }

  /** A positive multiple of a positive number is at least that number. */
  lemma {:induction false} MulAtLeast(n: int, d: int)
    requires 0 < n && 1 <= d
    ensures n * d >= n
    decreases d
  {
    if d > 1 {
      MulAtLeast(n, d - 1);
      assert n * d == n * (d - 1) + n;
    }
  }

  /** Multiplication distributes over a difference. */
  lemma MulSub(n: int, a: int, b: int)
    ensures n * (a - b) == n * a - n * b
  {
  }

  /** Adding a multiple of the modulus does not change the remainder. */
  lemma ModPlusMultiple(x: int, q: int, n: int)
    requires 0 < n
    ensures (x + n * q) % n == x % n
  {
    assert x == n * (x / n) + x % n;
    assert x + n * q == n * (x / n + q) + x % n;
    ModUnique(x + n * q, n, x / n + q, x % n);
  }

  /** A value already in range is its own remainder. */
  lemma ModOfSmall(x: int, n: int)
    requires 0 <= x < n
    ensures x % n == x
  {
    ModUnique(x, n, 0, x);
  }

  /** Reducing an operand first does not change the remainder of a sum. */
  lemma ModAddMod(a: int, k: int, n: int)
    requires 0 < n
    ensures (a % n + k) % n == (a + k) % n
  {
    assert a % n + k == (a + k) + n * (-(a / n));
    ModPlusMultiple(a + k, -(a / n), n);
  }

  /** Reducing both operands first does not change the remainder of a difference. */
  lemma ModSubMod(a: int, b: int, n: int)
    requires 0 < n
    ensures (a % n - b % n) % n == (a - b) % n
  {
    assert a % n - b % n == (a - b) + n * (b / n - a / n);
    ModPlusMultiple(a - b, b / n - a / n, n);
  }

  /** Two positions less than a full turn apart land on different slots. */
  lemma ModDistinct(a: int, b: int, n: int)
    requires 0 < n && a < b < a + n
    ensures a % n != b % n
  {
    var d := b - a;
    ModAddMod(a, d, n);
    if a % n + d < n {
      ModOfSmall(a % n + d, n);
    } else {
      ModPlusMultiple(a % n + d - n, 1, n);
      ModOfSmall(a % n + d - n, n);
    }
  }
}
