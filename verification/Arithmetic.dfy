/** Durations in 64 bits, and small facts of integer arithmetic. */
module Arithmetic {

  /** The limits of time.Duration, a 64-bit signed count of nanoseconds. */
  const INT64 := 0x8000_0000_0000_0000
  const SECOND := 1_000_000_000

  /** Two's-complement reduction of a 64-bit result. */
  function Wrap(x: int): (r: int)
    ensures -INT64 <= r < INT64
    ensures -INT64 <= x < INT64 ==> r == x
  {
    (x + INT64) % (2 * INT64) - INT64
  }

  lemma OneMore(k: int, x: int)
    ensures (k + 1) * x == k * x + x
  {
  }

  lemma NextMod(t: nat, n: nat)
    requires n > 0
    ensures (t + 1) % n == if t % n + 1 == n then 0 else t % n + 1
  {
    var q, r := t / n, t % n;
    if r + 1 == n {
      assert t + 1 == n * (q + 1) + 0;
      DivMod(q + 1, 0, n, t + 1);
    } else {
      DivMod(q, r + 1, n, t + 1);
    }
  }

  lemma AtLeastOnce(n: int, d: int)
    requires n > 0 && d >= 1
    ensures n * d >= n
  {
  }

  lemma NoMore(n: int, d: int)
    requires n > 0 && d <= 0
    ensures n * d <= 0
  {
  }

  lemma DivMod(q: int, r: int, n: int, x: int)
    requires n > 0 && 0 <= r < n && x == n * q + r
    ensures x % n == r
  {
    var d := x / n - q;
    assert n * d == r - x % n;
    if d >= 1 {
      AtLeastOnce(n, d);
    } else if d <= -1 {
      AtLeastOnce(n, -d);
    }
  }

  lemma DivGrows(a: int, b: int, n: int)
    requires n > 0 && a <= b
    ensures a / n <= b / n
  {
    var d := a / n - b / n;
    assert n * d == (a - a % n) - (b - b % n);
    if d >= 1 {
      AtLeastOnce(n, d);
    }
  }

  lemma DivBound(k: int, n: int, x: int)
    requires n > 0
    ensures k * n <= x <==> k <= x / n
  {
    var d := k - x / n;
    assert n * d == k * n - x + x % n;
    if d >= 1 {
      AtLeastOnce(n, d);
    } else {
      NoMore(n, d);
    }
  }

  lemma DivNext(a: int, n: int)
    requires n > 0
    ensures (a + n) / n == a / n + 1
    ensures (a + n) % n == a % n
  {
    assert a + n == n * (a / n + 1) + a % n;
    DivMod(a / n + 1, a % n, n, a + n);
    var d := (a + n) / n - (a / n + 1);
    assert n * d == 0;
    if d >= 1 {
      AtLeastOnce(n, d);
    } else if d <= -1 {
      AtLeastOnce(n, -d);
    }
  }
}
