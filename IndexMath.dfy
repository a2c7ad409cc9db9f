/** Integer facts behind the page arithmetic: floor division by a positive
    page size, and the one-step cyclic moves used for the cursor and the
    visible window. */
module IndexMath {

  /** Multiplying both sides of `a <= b` by a non-negative factor keeps the order. */
  lemma MulMonotone(a: int, b: int, k: int)
    requires a <= b && 0 <= k
    ensures a * k <= b * k
  {
    assert b * k - a * k == (b - a) * k;
  }

  /** The quotient of floor division is the unique page whose block holds `m`. */
  lemma {:induction false} FloorBracket(m: int, k: int)
    requires k >= 1
    ensures (m / k) * k <= m < (m / k + 1) * k
    ensures 0 <= m ==> 0 <= m / k && 0 <= (m / k) * k
  {
    assert m == (m / k) * k + m % k;
    assert (m / k + 1) * k == (m / k) * k + k;
    if 0 <= m {
      MulMonotone(0, m / k, k);
    }
  }

  /** Any `q` whose block `[q*k, (q+1)*k)` holds `m` is the floor quotient. */
  lemma {:induction false} FloorUnique(m: int, k: int, q: int)
    requires k >= 1
    requires q * k <= m < (q + 1) * k
    ensures m / k == q
  {
    var d := m / k;
    FloorBracket(m, k);
    if d < q {
      MulMonotone(d + 1, q, k);
      assert false;
    } else if d > q {
      MulMonotone(q + 1, d, k);
      assert false;
    }
  }

  /** Step one position back in `[0, n)`: decrement, and jump to `n - 1`
      when the result would be negative. */
  function WrapDown(i: int, n: int): (r: int)
    ensures 0 <= i < n ==> 0 <= r < n
  {
    if i - 1 < 0 then n - 1 else i - 1
  }

  /** Step one position forward in `[0, n)`: increment, and jump to `0`
      when the result reaches `n`. */
  function WrapUp(i: int, n: int): (r: int)
    ensures 0 <= i < n ==> 0 <= r < n
  {
    if i + 1 >= n then 0 else i + 1
  }

  /** Inside `[0, n)` the two wrapped steps are the cyclic predecessor and
      successor modulo `n`. */
  lemma WrapIsModular(i: int, n: int)
    requires 0 <= i < n
    ensures WrapDown(i, n) == (i - 1 + n) % n
    ensures WrapUp(i, n) == (i + 1) % n
  {
    if i == 0 {
      ModUnique(n - 1, n, 0, n - 1);
    } else {
      ModUnique(i - 1 + n, n, 1, i - 1);
    }
    if i + 1 == n {
      ModUnique(n, n, 1, 0);
    } else {
      ModUnique(i + 1, n, 0, i + 1);
    }
  }

  /** Moving both ends of a cyclic window by the same wrapped step keeps
      the cyclic distance from one end to the other. */
  lemma {:induction false} WrapKeepsSpan(a: int, b: int, n: int)
    requires 0 <= a < n && 0 <= b < n
    ensures (WrapUp(b, n) - WrapUp(a, n)) % n == (b - a) % n
    ensures (WrapDown(b, n) - WrapDown(a, n)) % n == (b - a) % n
  {
    ShiftMod(b - a, n);
  }

  /** Adding `n` or `-n` to an integer does not change its remainder mod `n`;
      the cases of `WrapKeepsSpan` differ from `b - a` by exactly that much. */
  lemma ShiftMod(x: int, n: int)
    requires n >= 1
    ensures (x + n) % n == x % n && (x - n) % n == x % n
  {
    assert x + n == (x / n + 1) * n + x % n;
    assert x - n == (x / n - 1) * n + x % n;
    FloorBracket(x, n);
    assert (x / n + 1) * n + x % n == x + n;
    ModUnique(x + n, n, x / n + 1, x % n);
    ModUnique(x - n, n, x / n - 1, x % n);
  }

  /** A representation `m == q*n + r` with `0 <= r < n` fixes the remainder. */
  lemma ModUnique(m: int, n: int, q: int, r: int)
    requires n >= 1 && 0 <= r < n && m == q * n + r
    ensures m % n == r
  {
    assert (q + 1) * n == q * n + n;
    FloorUnique(m, n, q);
  }
}
